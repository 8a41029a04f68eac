/**
  Which verifier checks a result file: the EXR verifier or the
  general-purpose raster verifier. The choice depends on the file's
  extension as POSIX `splitext` computes it (the extension keeps its
  leading dot), compared without regard to ASCII case.
*/
module ImageCheck {

  datatype Verifier = ExrVerifier | RasterVerifier

  /** The last position of `c` in `s`, or -1. */
  function RFind(s: string, c: char): (r: int)
    ensures -1 <= r < |s|
    ensures r >= 0 ==> s[r] == c
    ensures forall k :: r < k < |s| ==> s[k] != c
    decreases |s|
  {
    if s == [] then -1
    else if s[|s| - 1] == c then |s| - 1
    else RFind(s[..|s| - 1], c)
  }

  /** Whether `p` has a character other than a dot at a position in `[from, to)`. */
  predicate NonDotIn(p: string, from: int, to: int)
    requires 0 <= from && to <= |p|
  {
    exists k :: from <= k < to && p[k] != '.'
  }

  /**
    The extension of a path: from its last dot to its end, provided the
    dot lies in the last path component and is not one of the dots that
    lead that component; empty otherwise.
  */
  function Extension(p: string): (e: string)
    ensures |e| <= |p|
    ensures e == [] || (e[0] == '.' && e == p[|p| - |e|..])
    ensures e != [] ==> e == p[RFind(p, '.')..]
    ensures forall k :: 1 <= k < |e| ==> e[k] != '.' && e[k] != '/'
    ensures RFind(p, '.') <= RFind(p, '/') ==> e == []
    ensures e != [] <==> RFind(p, '/') < RFind(p, '.') && NonDotIn(p, RFind(p, '/') + 1, RFind(p, '.'))
  {
    var sepIndex := RFind(p, '/');
    var dotIndex := RFind(p, '.');
    if dotIndex > sepIndex && NonDotIn(p, sepIndex + 1, dotIndex) then p[dotIndex..] else []
  }

  function UpperChar(c: char): char {
    if 'a' <= c <= 'z' then (c as int - 32) as char else c
  }

  /** ASCII upper-casing. */
  function Upper(s: string): (u: string)
    ensures |u| == |s|
    ensures forall k :: 0 <= k < |s| ==> u[k] == UpperChar(s[k])
  {
    seq(|s|, k requires 0 <= k < |s| => UpperChar(s[k]))
  }

  /** The dispatch as it is written: the upper-cased extension is compared with "EXR". */
  function VerifierAsWritten(file: string): (v: Verifier)
    ensures v == RasterVerifier <==> Upper(Extension(file)) == "EXR"
  {
    if Upper(Extension(file)) != "EXR" then ExrVerifier else RasterVerifier
  }

  /**
    An extension is never "EXR" without its dot, so the dispatch as written
    sends every file, whatever its format, to the EXR verifier.
  */
  lemma AsWrittenAlwaysChoosesExr(file: string)
    ensures VerifierAsWritten(file) == ExrVerifier
  {
    var e := Extension(file);
    if e != [] {
      assert Upper(e)[0] == '.';
    }
  }

  /** A PNG tile goes to the EXR verifier as written. */
  lemma AsWrittenSendsPngToExr()
    ensures Extension("tile.png") == ".png"
    ensures VerifierAsWritten("tile.png") == ExrVerifier
  {
    assert "tile.png"[4] == '.' && "tile.png"[0] != '.';
    AsWrittenAlwaysChoosesExr("tile.png");
  }

  /** The evidently intended dispatch: EXR files to the EXR verifier, all others to the raster one. */
  function VerifierFor(file: string): (v: Verifier)
    ensures v == ExrVerifier <==> Upper(Extension(file)) == ".EXR"
  {
    if Upper(Extension(file)) == ".EXR" then ExrVerifier else RasterVerifier
  }

  /** With the intended dispatch a PNG tile is checked as a raster image. */
  lemma IntendedSendsPngToRaster()
    ensures VerifierFor("tile.png") == RasterVerifier
  {
    assert "tile.png"[4] == '.' && "tile.png"[0] != '.';
    assert Extension("tile.png") == ".png";
    assert Upper(".png")[1] == 'P';
  }

  /** With the intended dispatch an EXR tile is checked as EXR, in either case. */
  lemma IntendedSendsExrToExr()
    ensures VerifierFor("tile.exr") == ExrVerifier
  {
    assert "tile.exr"[4] == '.' && "tile.exr"[0] != '.';
    assert Extension("tile.exr") == ".exr";
    assert Upper(".exr") == ".EXR";
  }
}
