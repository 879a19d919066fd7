/**
 * sanitize_filename (extract_pdf_pages_to_png.py:10-20): an exam booklet's
 * name is made safe for use as a file name by five successive whole-string
 * replacements: spaces, slashes and backslashes become underscores, and
 * parentheses are dropped.
 */
module FileNames {
  import opened Base

  /** s.replace(c, sub) for a one-character pattern: every occurrence of c becomes sub. */
  function Replace(s: seq<char>, c: char, sub: seq<char>): seq<char> {
    if s == [] then []
    else Replace(s[..|s| - 1], c, sub) + (if s[|s| - 1] == c then sub else [s[|s| - 1]])
  }

  /** The replacements of sanitize_filename, in the order the source applies them. */
  function SanitizeFilename(name: seq<char>): seq<char> {
    Replace(Replace(Replace(Replace(Replace(name, ' ', "_"), '/', "_"), '\\', "_"), '(', ""), ')', "")
  }

  // ---------------------------------------------------------------------------
  // A reference definition: one character at a time
  // ---------------------------------------------------------------------------

  predicate IsSeparator(c: char) { c == ' ' || c == '/' || c == '\\' }

  predicate IsParen(c: char) { c == '(' || c == ')' }

  /** What a single character becomes in a sanitized name. */
  function SafeChar(c: char): seq<char> {
    if IsSeparator(c) then "_" else if IsParen(c) then [] else [c]
  }

  function MapSafe(s: seq<char>): seq<char> {
    if s == [] then [] else MapSafe(s[..|s| - 1]) + SafeChar(s[|s| - 1])
  }

  /** A name with no character the sanitizer rewrites. */
  predicate IsSafe(s: seq<char>) {
    forall k :: 0 <= k < |s| ==> !IsSeparator(s[k]) && !IsParen(s[k])
  }

  // ---------------------------------------------------------------------------
  // Properties
  // ---------------------------------------------------------------------------

  lemma {:induction false} ReplaceAppend(a: seq<char>, b: seq<char>, c: char, sub: seq<char>)
    ensures Replace(a + b, c, sub) == Replace(a, c, sub) + Replace(b, c, sub)
    decreases |b|
  {
    if b == [] {
      assert a + b == a;
    } else {
      var init := b[..|b| - 1];
      var last := b[|b| - 1];
      var t := if last == c then sub else [last];
      assert (a + b)[..|a + b| - 1] == a + init;
      assert (a + b)[|a + b| - 1] == last;
      assert Replace(a + b, c, sub) == Replace(a + init, c, sub) + t;
      ReplaceAppend(a, init, c, sub);
      assert Replace(b, c, sub) == Replace(init, c, sub) + t;
      AppendAssoc(Replace(a, c, sub), Replace(init, c, sub), t);
    }
  }

  lemma ReplaceOne(x: char, c: char, sub: seq<char>)
    ensures Replace([x], c, sub) == if x == c then sub else [x]
  {
    assert [x][..0] == [];
  }

  /** Sanitizing distributes over concatenation. */
  lemma SanitizeAppend(a: seq<char>, b: seq<char>)
    ensures SanitizeFilename(a + b) == SanitizeFilename(a) + SanitizeFilename(b)
  {
    var a1, b1 := Replace(a, ' ', "_"), Replace(b, ' ', "_");
    var a2, b2 := Replace(a1, '/', "_"), Replace(b1, '/', "_");
    var a3, b3 := Replace(a2, '\\', "_"), Replace(b2, '\\', "_");
    var a4, b4 := Replace(a3, '(', ""), Replace(b3, '(', "");
    ReplaceAppend(a, b, ' ', "_");
    ReplaceAppend(a1, b1, '/', "_");
    ReplaceAppend(a2, b2, '\\', "_");
    ReplaceAppend(a3, b3, '(', "");
    ReplaceAppend(a4, b4, ')', "");
  }

  /** A one-character name, sanitized, is what SafeChar makes of that character. */
  lemma SanitizeOne(x: char)
    ensures SanitizeFilename([x]) == SafeChar(x)
  {
    ReplaceOne(x, ' ', "_");
    if x == ' ' || x == '/' || x == '\\' {
      var u: seq<char> := ['_'];
      assert "_" == u;
      var y1 := Replace([x], ' ', "_");
      assert y1 == u || y1 == [x];
      ReplaceOne(x, '/', "_");
      ReplaceOne('_', '/', "_");
      var y2 := Replace(y1, '/', "_");
      assert y2 == u || (x == '\\' && y2 == [x]);
      ReplaceOne(x, '\\', "_");
      ReplaceOne('_', '\\', "_");
      assert Replace(y2, '\\', "_") == u;
      ReplaceOne('_', '(', "");
      ReplaceOne('_', ')', "");
    } else {
      ReplaceOne(x, '/', "_");
      ReplaceOne(x, '\\', "_");
      ReplaceOne(x, '(', "");
      assert Replace(Replace(Replace(Replace([x], ' ', "_"), '/', "_"), '\\', "_"), '(', "")
        == if x == '(' then [] else [x];
      ReplaceOne(x, ')', "");
    }
  }

  /** Sanitizing a name and appending a character sanitizes them one after the other. */
  lemma SanitizeSnoc(s: seq<char>, x: char)
    ensures SanitizeFilename(s + [x]) == SanitizeFilename(s) + SafeChar(x)
  {
    SanitizeAppend(s, [x]);
    SanitizeOne(x);
  }

  /** The chain of replacements rewrites each character on its own, independently of the others. */
  lemma {:induction false} SanitizeIsCharwise(name: seq<char>)
    ensures SanitizeFilename(name) == MapSafe(name)
    decreases |name|
  {
    if name != [] {
      var init := name[..|name| - 1];
      SanitizeIsCharwise(init);
      assert name == init + [name[|name| - 1]];
      SanitizeSnoc(init, name[|name| - 1]);
    }
  }

  lemma {:induction false} MapSafeIsSafe(s: seq<char>)
    ensures IsSafe(MapSafe(s))
    decreases |s|
  {
    if s != [] {
      var init := s[..|s| - 1];
      MapSafeIsSafe(init);
      var head := MapSafe(init);
      var tail := SafeChar(s[|s| - 1]);
      assert IsSafe(tail);
      var r := head + tail;
      forall k | 0 <= k < |r|
        ensures !IsSeparator(r[k]) && !IsParen(r[k])
      {
        if k < |head| {
          assert r[k] == head[k];
        } else {
          assert r[k] == tail[k - |head|];
        }
      }
    }
  }

  lemma {:induction false} MapSafeLength(s: seq<char>)
    ensures |MapSafe(s)| == |s| - |Filter(s, IsParen)|
    decreases |s|
  {
    if s != [] {
      var init := s[..|s| - 1];
      MapSafeLength(init);
      assert |Filter(s, IsParen)| == |Filter(init, IsParen)| + (if IsParen(s[|s| - 1]) then 1 else 0);
    }
  }

  lemma {:induction false} MapSafeKeepsSafe(s: seq<char>)
    requires IsSafe(s)
    ensures MapSafe(s) == s
    decreases |s|
  {
    if s != [] {
      var init := s[..|s| - 1];
      assert IsSafe(init) by {
        forall k | 0 <= k < |init|
          ensures !IsSeparator(init[k]) && !IsParen(init[k])
        {
          assert init[k] == s[k];
        }
      }
      MapSafeKeepsSafe(init);
      assert SafeChar(s[|s| - 1]) == [s[|s| - 1]];
      assert s == init + [s[|s| - 1]];
    }
  }

  /**
   * A sanitized name holds no space, slash, backslash or parenthesis; it is
   * shorter than the name exactly by the number of parentheses; and a name
   * that holds none of those characters is left unchanged.
   */
  lemma SanitizeFacts(name: seq<char>)
    ensures IsSafe(SanitizeFilename(name))
    ensures |SanitizeFilename(name)| == |name| - |Filter(name, IsParen)|
    ensures IsSafe(name) ==> SanitizeFilename(name) == name
  {
    SanitizeIsCharwise(name);
    MapSafeIsSafe(name);
    MapSafeLength(name);
    if IsSafe(name) {
      MapSafeKeepsSafe(name);
    }
  }

  /** Sanitizing twice is sanitizing once. */
  lemma SanitizeIdempotent(name: seq<char>)
    ensures SanitizeFilename(SanitizeFilename(name)) == SanitizeFilename(name)
  {
    SanitizeFacts(name);
    SanitizeFacts(SanitizeFilename(name));
  }
}
