/** The optional-value wrapper used for lookups that can come back empty. */
module Wrappers {
  datatype Option<+T> = None | Some(value: T)
}

/**
 * The values that travel from the extraction backend to the viewer: a
 * normalised bounding box and one extracted text record
 * (`{"text", "bbox", "page_num"}` in the backend's JSON).
 */
module Records {

  /** `[x0, y0, x1, y1]`, each a fraction of the page's width or height. */
  datatype BBox = BBox(x0: real, y0: real, x1: real, y1: real)

  /** One entry of `extracted_data`; `pageNum` is 1-based. */
  datatype TextRecord = TextRecord(text: string, bbox: BBox, pageNum: int)

  /** The "[0..1]" promise: every coordinate a fraction, and the corners ordered. */
  predicate InUnit(b: BBox) {
    0.0 <= b.x0 <= b.x1 <= 1.0 && 0.0 <= b.y0 <= b.y1 <= 1.0
  }

  /** The corners are ordered: the box has non-negative width and height. */
  predicate Ordered(b: BBox) {
    b.x0 <= b.x1 && b.y0 <= b.y1
  }
}

/** Python's `str.isspace()` character class and `str.strip()` with no argument. */
module PyStrings {

  /** The characters for which Python's `str.isspace()` holds. */
  predicate IsSpace(c: char) {
    ('\U{0009}' <= c <= '\U{000D}') || ('\U{001C}' <= c <= '\U{001F}') || c == ' '
    || c == '\U{0085}' || c == '\U{00A0}' || c == '\U{1680}'
    || ('\U{2000}' <= c <= '\U{200A}') || c == '\U{2028}' || c == '\U{2029}'
    || c == '\U{202F}' || c == '\U{205F}' || c == '\U{3000}'
  }

  /** `s.lstrip()`: `s` without its leading whitespace. */
  function LStrip(s: string): (r: string)
    ensures |r| <= |s|
  {
    if |s| > 0 && IsSpace(s[0]) then LStrip(s[1..]) else s
  }

  /** `s.rstrip()`: `s` without its trailing whitespace. */
  function RStrip(s: string): (r: string)
    ensures |r| <= |s|
  {
    if |s| > 0 && IsSpace(s[|s| - 1]) then RStrip(s[..|s| - 1]) else s
  }

  /** `lstrip` keeps a suffix, cuts only whitespace, and stops at a non-space. */
  lemma {:induction false} LStripFacts(s: string)
    ensures var r := LStrip(s);
      && |r| <= |s| && r == s[|s| - |r|..]
      && (r != [] ==> !IsSpace(r[0]))
      && (forall k :: 0 <= k < |s| - |r| ==> IsSpace(s[k]))
  {
    if |s| > 0 && IsSpace(s[0]) {
      LStripFacts(s[1..]);
      var r := LStrip(s);
      forall k | 0 <= k < |s| - |r| ensures IsSpace(s[k]) {
        if k > 0 { assert s[k] == s[1..][k - 1]; }
      }
    }
  }

  /** `rstrip` keeps a prefix, cuts only whitespace, and stops at a non-space. */
  lemma {:induction false} RStripFacts(s: string)
    ensures var r := RStrip(s);
      && |r| <= |s| && r == s[..|r|]
      && (r != [] ==> !IsSpace(r[|r| - 1]))
      && (forall k :: |r| <= k < |s| ==> IsSpace(s[k]))
  {
    if |s| > 0 && IsSpace(s[|s| - 1]) {
      RStripFacts(s[..|s| - 1]);
      var r := RStrip(s);
      forall k | |r| <= k < |s| ensures IsSpace(s[k]) {
        if k < |s| - 1 { assert s[k] == s[..|s| - 1][k]; }
      }
    }
  }

  /** `s.strip()`: a result no longer than `s` with no whitespace at either end. */
  function Strip(s: string): (r: string)
    ensures |r| <= |s|
    ensures r != [] ==> !IsSpace(r[0]) && !IsSpace(r[|r| - 1])
  {
    LStripFacts(s);
    RStripFacts(LStrip(s));
    var r := RStrip(LStrip(s));
    assert r != [] ==> r[0] == LStrip(s)[0];
    r
  }

  /**
   * What `strip` keeps is a slice of `s`, everything it cuts off on either
   * side is whitespace, and it keeps nothing exactly when `s` is all
   * whitespace.
   */
  lemma StripCharacterised(s: string)
    ensures var r := Strip(s); var i := |s| - |LStrip(s)|;
      && i + |r| <= |s| && r == s[i..i + |r|]
      && (forall k :: 0 <= k < i ==> IsSpace(s[k]))
      && (forall k :: i + |r| <= k < |s| ==> IsSpace(s[k]))
      && (r == [] <==> forall k :: 0 <= k < |s| ==> IsSpace(s[k]))
  {
    var l := LStrip(s);
    var r := RStrip(l);
    var i := |s| - |l|;
    LStripFacts(s);
    RStripFacts(l);
    assert l == s[i..];
    assert r == l[..|r|];
    forall k | i <= k < |s| ensures s[k] == l[k - i] { }
    forall k | i + |r| <= k < |s| ensures IsSpace(s[k]) {
      assert IsSpace(l[k - i]);
    }
  }

  /** Stripping twice is stripping once. */
  lemma StripIdempotent(s: string)
    ensures Strip(Strip(s)) == Strip(s)
  {
    var r := Strip(s);
    if r != [] {
      assert LStrip(r) == r;
      assert RStrip(r) == r;
    }
  }
}
