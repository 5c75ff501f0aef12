/** The two JavaScript string operations the candidate list is built with. */
module JsString {

  /** `s.split(sep)` for a one-character separator: the pieces between separators, in order.
      An empty string gives one empty piece; two adjacent separators give an empty piece.
      The definition reads the string from its end: the last character either starts a new
      piece (a separator) or extends the last piece. */
  function Split(s: string, sep: char): (r: seq<string>)
    ensures |r| >= 1
    ensures forall i :: 0 <= i < |r| ==> sep !in r[i]
  {
    if s == [] then [""]
    else
      var init := Split(s[..|s| - 1], sep);
      var c := s[|s| - 1];
      if c == sep then init + [""]
      else init[..|init| - 1] + [init[|init| - 1] + [c]]
  }

  /** `xs.join(sep)`: the inverse of `Split` that the properties below are stated with. */
  ghost function Join(xs: seq<string>, sep: char): string
    requires |xs| >= 1
  {
    if |xs| == 1 then xs[0] else Join(xs[..|xs| - 1], sep) + [sep] + xs[|xs| - 1]
  }

  /** Appending a piece appends a separator and the piece to the joined string. */
  lemma JoinSnoc(xs: seq<string>, x: string, sep: char)
    requires |xs| >= 1
    ensures Join(xs + [x], sep) == Join(xs, sep) + [sep] + x
  {
    assert (xs + [x])[..|xs|] == xs;
  }

  /** Joining the pieces again gives back the original string. */
  lemma {:induction false} JoinSplit(s: string, sep: char)
    ensures Join(Split(s, sep), sep) == s
  {
    if s != [] {
      var s', c := s[..|s| - 1], s[|s| - 1];
      assert s == s' + [c];
      var init := Split(s', sep);
      JoinSplit(s', sep);
      var r := Split(s, sep);
      if c == sep {
        assert r == init + [""];
        assert r[..|r| - 1] == init;
      } else {
        var n := |init|;
        assert r == init[..n - 1] + [init[n - 1] + [c]];
        if n > 1 {
          assert r[..|r| - 1] == init[..n - 1];
          assert init[..n - 1] == init[..n - 1][..n - 1];
          assert Join(init, sep) == Join(init[..n - 1], sep) + [sep] + init[n - 1];
        }
      }
    }
  }

  /** A string without separators is a single piece. */
  lemma {:induction false} SplitSingle(f: string, sep: char)
    requires sep !in f
    ensures Split(f, sep) == [f]
  {
    if f != [] {
      var f' := f[..|f| - 1];
      assert f == f' + [f[|f| - 1]];
      SplitSingle(f', sep);
    }
  }

  /** A separator followed by a piece without separators splits off that piece as the last one. */
  lemma {:induction false} SplitSnoc(p: string, f: string, sep: char)
    requires sep !in f
    ensures Split(p + [sep] + f, sep) == Split(p, sep) + [f]
  {
    var s := p + [sep] + f;
    if f == [] {
      assert s[..|s| - 1] == p;
    } else {
      var f', c := f[..|f| - 1], f[|f| - 1];
      assert f == f' + [c];
      assert s[..|s| - 1] == p + [sep] + f';
      SplitSnoc(p, f', sep);
      var init := Split(p, sep) + [f'];
      assert init[..|init| - 1] == Split(p, sep);
    }
  }

  /** Splitting undoes joining pieces that hold no separator. */
  lemma {:induction false} SplitJoin(xs: seq<string>, sep: char)
    requires |xs| >= 1
    requires forall i :: 0 <= i < |xs| ==> sep !in xs[i]
    ensures Split(Join(xs, sep), sep) == xs
  {
    if |xs| == 1 {
      SplitSingle(xs[0], sep);
    } else {
      var init := xs[..|xs| - 1];
      SplitJoin(init, sep);
      SplitSnoc(Join(init, sep), xs[|xs| - 1], sep);
      assert init + [xs[|xs| - 1]] == xs;
    }
  }

  /** The characters `String.prototype.trim` removes: WhiteSpace and LineTerminator of the
      ECMAScript grammar (section 12.2 and 12.3 of ECMA-262), the space separators (Zs) listed out. */
  predicate IsWhiteSpace(c: char) {
    c == '\t' || c == '\n' || c == '\U{000B}' || c == '\U{000C}' || c == '\r' || c == ' '
    || c == '\U{00A0}' || c == '\U{1680}' || ('\U{2000}' <= c <= '\U{200A}')
    || c == '\U{2028}' || c == '\U{2029}' || c == '\U{202F}' || c == '\U{205F}'
    || c == '\U{3000}' || c == '\U{FEFF}'
  }

  /** The string holds white space only (or nothing). */
  ghost predicate IsBlank(s: string) {
    forall i :: 0 <= i < |s| ==> IsWhiteSpace(s[i])
  }

  /** Drops the leading white space. */
  function TrimStart(s: string): (r: string)
    ensures |r| <= |s| && r == s[|s| - |r|..]
    ensures IsBlank(s[..|s| - |r|])
    ensures r == [] || !IsWhiteSpace(r[0])
  {
    if s != [] && IsWhiteSpace(s[0]) then TrimStart(s[1..]) else s
  }

  /** Drops the trailing white space. */
  function TrimEnd(s: string): (r: string)
    ensures |r| <= |s| && r == s[..|r|]
    ensures IsBlank(s[|r|..])
    ensures r == [] || !IsWhiteSpace(r[|r| - 1])
  {
    if s != [] && IsWhiteSpace(s[|s| - 1]) then TrimEnd(s[..|s| - 1]) else s
  }

  /** `s.trim()`. */
  function Trim(s: string): string {
    TrimEnd(TrimStart(s))
  }

  /** `s.trim().length > 0` holds exactly when `s` has a character that is not white space. */
  lemma TrimNonEmpty(s: string)
    ensures |Trim(s)| > 0 <==> !IsBlank(s)
  {
    var a := TrimStart(s);
    var n := |s| - |a|;
    if |Trim(s)| == 0 {
      assert a[0..] == a;
      assert a == [];
      assert s[..n] == s;
    } else {
      assert !IsWhiteSpace(a[0]);
      assert a[0] == s[n];
    }
  }
}
