/**
 * The two pieces of JavaScript string semantics the bounty workflow leans
 * on: truthiness of an optional string field, and `String.prototype.trim`,
 * which both Mongoose's `trim: true` setter and the client's blank-URL test
 * use.
 */
module JsText {
  import opened Api

  /** A request field is truthy when it is present and not the empty string. */
  predicate Truthy(s: Option<string>)
  {
    s.Some? && s.value != ""
  }

  /** ECMAScript WhiteSpace and LineTerminator code points: what `trim`
      removes. */
  predicate IsWhitespace(c: char)
  {
    || c == '\t' || c == '\n' || c == '\U{B}' || c == '\U{C}' || c == '\r'
    || c == ' ' || c == '\U{A0}' || c == '\U{1680}'
    || ('\U{2000}' <= c <= '\U{200A}')
    || c == '\U{2028}' || c == '\U{2029}' || c == '\U{202F}' || c == '\U{205F}'
    || c == '\U{3000}' || c == '\U{FEFF}'
  }

  ghost predicate AllWhitespace(s: string)
  {
    forall i :: 0 <= i < |s| ==> IsWhitespace(s[i])
  }

  /** `s` with its leading white space removed. */
  function TrimStart(s: string): (r: string)
    ensures |r| <= |s|
    ensures r != [] ==> !IsWhitespace(r[0])
  {
    if s != [] && IsWhitespace(s[0]) then TrimStart(s[1..]) else s
  }

  /** `s` with its trailing white space removed. */
  function TrimEnd(s: string): (r: string)
    ensures |r| <= |s| && r == s[..|r|]
    ensures r != [] ==> !IsWhitespace(r[|r| - 1])
  {
    if s != [] && IsWhitespace(s[|s| - 1]) then TrimEnd(s[..|s| - 1]) else s
  }

  /** `TrimStart` drops a white-space prefix and keeps the rest. */
  lemma {:induction false} TrimStartDropsWhitespace(s: string)
    ensures TrimStart(s) == s[|s| - |TrimStart(s)|..]
    ensures AllWhitespace(s[..|s| - |TrimStart(s)|])
    decreases |s|
  {
    if s != [] && IsWhitespace(s[0]) {
      TrimStartDropsWhitespace(s[1..]);
      var n := |s| - |TrimStart(s)|;
      assert s[1..][n - 1..] == s[n..];
      assert s[..n] == [s[0]] + s[1..][..n - 1];
    }
  }

  /** `TrimEnd` drops a white-space suffix and keeps the rest. */
  lemma {:induction false} TrimEndDropsWhitespace(s: string)
    ensures AllWhitespace(s[|TrimEnd(s)|..])
    decreases |s|
  {
    if s != [] && IsWhitespace(s[|s| - 1]) {
      TrimEndDropsWhitespace(s[..|s| - 1]);
      var n := |TrimEnd(s)|;
      assert s[n..] == s[..|s| - 1][n..] + [s[|s| - 1]];
    }
  }

  /** Neither end of `s` is white space. */
  predicate IsTrimmed(s: string)
  {
    s == [] || (!IsWhitespace(s[0]) && !IsWhitespace(s[|s| - 1]))
  }

  /** `String.prototype.trim`. */
  function Trim(s: string): (r: string)
    ensures |r| <= |s|
    ensures IsTrimmed(r)
  {
    TrimEnd(TrimStart(s))
  }

  /** Trimming removes only white space: the result is a contiguous piece
      of the input, and everything around it is white space. */
  lemma TrimIsSlice(s: string)
    ensures exists a :: (0 <= a && a + |Trim(s)| <= |s| && Trim(s) == s[a..a + |Trim(s)|]
                         && AllWhitespace(s[..a]) && AllWhitespace(s[a + |Trim(s)|..]))
  {
    var t := TrimStart(s);
    var a := |s| - |t|;
    var r := TrimEnd(t);
    TrimStartDropsWhitespace(s);
    TrimEndDropsWhitespace(t);
    assert t == s[a..];
    assert r == s[a..a + |r|];
    assert s[a + |r|..] == t[|r|..];
    assert 0 <= a && a + |r| <= |s| && r == s[a..a + |r|] && AllWhitespace(s[..a]) && AllWhitespace(s[a + |r|..]);
  }

  /** A string is trimmed to nothing exactly when it is all white space. */
  lemma TrimBlank(s: string)
    ensures Trim(s) == [] <==> AllWhitespace(s)
  {
    var t := TrimStart(s);
    TrimStartDropsWhitespace(s);
    if Trim(s) == [] {
      TrimEndDropsWhitespace(t);
      assert t == t[0..];
      assert t == [];
      assert s[..|s|] == s;
    } else {
      var r := Trim(s);
      assert t == s[|s| - |t|..];
      assert !IsWhitespace(s[|s| - |t|]);
    }
  }

  /** `trim` leaves a trimmed string as it is, so a stored field passes
      through the setter again unchanged when the document is saved. */
  lemma TrimmedIsFixed(s: string)
    requires IsTrimmed(s)
    ensures Trim(s) == s
  {
    assert TrimStart(s) == s;
    assert TrimEnd(s) == s;
  }

  /** The strings `trim` leaves as they are are exactly the trimmed ones,
      and trimming twice is trimming once. */
  lemma TrimFixes(s: string)
    ensures Trim(s) == s <==> IsTrimmed(s)
    ensures Trim(Trim(s)) == Trim(s)
  {
    TrimmedIsFixed(Trim(s));
    if IsTrimmed(s) {
      TrimmedIsFixed(s);
    }
  }
}
