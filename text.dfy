/**
  String operations with the meaning JavaScript gives them, as far as the two
  panels use them: ASCII case mapping, `String.prototype.trim`, and
  `String.prototype.replace` with a string pattern (first occurrence only).
 */
module Text {
  import opened Wrappers

  predicate IsAsciiLower(c: char) { 'a' <= c <= 'z' }

  predicate IsAsciiUpper(c: char) { 'A' <= c <= 'Z' }

  /** `toUpperCase` of one character, on ASCII letters. */
  function UpperChar(c: char): (u: char)
    ensures IsAsciiLower(c) ==> IsAsciiUpper(u) && u as int == c as int - 32
    ensures !IsAsciiLower(c) ==> u == c
  {
    if IsAsciiLower(c) then (c as int - 32) as char else c
  }

  /** `toLowerCase` of one character, on ASCII letters. */
  function LowerChar(c: char): (l: char)
    ensures IsAsciiUpper(c) ==> IsAsciiLower(l) && l as int == c as int + 32
    ensures !IsAsciiUpper(c) ==> l == c
  {
    if IsAsciiUpper(c) then (c as int + 32) as char else c
  }

  /** `toLowerCase` of a string: character by character, length preserved. */
  function Lower(s: string): (r: string)
    ensures |r| == |s|
    ensures forall i :: 0 <= i < |s| ==> r[i] == LowerChar(s[i])
  {
    seq(|s|, i requires 0 <= i < |s| => LowerChar(s[i]))
  }

  /**
    The characters `trim` strips: ECMAScript's WhiteSpace (TAB, VT, FF, SPACE,
    NO-BREAK SPACE, ZERO WIDTH NO-BREAK SPACE and the space separators of
    category Zs) and its LineTerminator (LF, CR, LINE SEPARATOR, PARAGRAPH SEPARATOR).
   */
  predicate IsJsSpace(c: char) {
    var n := c as int;
    n == 0x09 || n == 0x0A || n == 0x0B || n == 0x0C || n == 0x0D || n == 0x20
    || n == 0xA0 || n == 0x1680 || (0x2000 <= n <= 0x200A) || n == 0x2028 || n == 0x2029
    || n == 0x202F || n == 0x205F || n == 0x3000 || n == 0xFEFF
  }

  /** Drops the leading white space: what remains is a suffix of `s`. */
  function TrimStart(s: string): (r: string)
    ensures |r| <= |s| && r == s[|s| - |r|..]
    ensures forall i :: 0 <= i < |s| - |r| ==> IsJsSpace(s[i])
    ensures r != [] ==> !IsJsSpace(r[0])
  {
    if s != [] && IsJsSpace(s[0]) then TrimStart(s[1..]) else s
  }

  /** Drops the trailing white space: what remains is a prefix of `s`. */
  function TrimEnd(s: string): (r: string)
    ensures |r| <= |s| && r == s[..|r|]
    ensures forall i :: |r| <= i < |s| ==> IsJsSpace(s[i])
    ensures r != [] ==> !IsJsSpace(r[|r| - 1])
  {
    if s != [] && IsJsSpace(s[|s| - 1]) then TrimEnd(s[..|s| - 1]) else s
  }

  /** `r` is the part of `s` from index `a` on, with only white space before and after it. */
  predicate SpaceAround(s: string, a: nat, r: string) {
    && a + |r| <= |s| && r == s[a..a + |r|]
    && (forall i :: 0 <= i < a ==> IsJsSpace(s[i]))
    && (forall i :: a + |r| <= i < |s| ==> IsJsSpace(s[i]))
  }

  /**
    `String.prototype.trim`: the result is the stretch of `s` between its leading
    and its trailing white space; neither end of it is white space, a string
    without white space is its own trim, and the trim is empty exactly when the
    string is nothing but white space.
   */
  function Trim(s: string): (r: string)
    ensures |r| <= |s|
    ensures SpaceAround(s, |s| - |TrimStart(s)|, r)
    ensures r != [] ==> !IsJsSpace(r[0]) && !IsJsSpace(r[|r| - 1])
    ensures (forall i :: 0 <= i < |s| ==> !IsJsSpace(s[i])) ==> r == s
    ensures r == [] <==> forall i :: 0 <= i < |s| ==> IsJsSpace(s[i])
  {
    TrimSpaceAround(s);
    TrimEnds(s);
    TrimWithoutSpace(s);
    TrimEmpty(s);
    var r := TrimEnd(TrimStart(s));
    assert SpaceAround(s, |s| - |TrimStart(s)|, r);
    r
  }

  /** Only white space lies around the trimmed part. */
  lemma TrimSpaceAround(s: string)
    ensures SpaceAround(s, |s| - |TrimStart(s)|, TrimEnd(TrimStart(s)))
  {
    var t := TrimStart(s);
    var r := TrimEnd(t);
    var a := |s| - |t|;
    assert t == s[a..];
    assert r == t[..|r|];
    assert r == s[a..a + |r|] by {
      assert s[a..a + |r|] == s[a..][..|r|];
    }
    assert forall i :: 0 <= i < a ==> IsJsSpace(s[i]);
    forall i | a + |r| <= i < |s| ensures IsJsSpace(s[i]) {
      assert s[i] == t[i - a];
      assert |r| <= i - a < |t|;
    }
    assert SpaceAround(s, a, r);
  }

  /** Neither end of the trimmed part is white space. */
  lemma TrimEnds(s: string)
    ensures var r := TrimEnd(TrimStart(s));
      r != [] ==> !IsJsSpace(r[0]) && !IsJsSpace(r[|r| - 1])
  {
    var t := TrimStart(s);
    var r := TrimEnd(t);
    assert r != [] ==> r[0] == t[0];
  }

  /** A string without white space is its own trim. */
  lemma TrimWithoutSpace(s: string)
    ensures (forall i :: 0 <= i < |s| ==> !IsJsSpace(s[i])) ==> TrimEnd(TrimStart(s)) == s
  {
    if forall i :: 0 <= i < |s| ==> !IsJsSpace(s[i]) {
      var t := TrimStart(s);
      if |s| > 0 {
        assert !IsJsSpace(s[0]) && !IsJsSpace(s[|s| - 1]);
      }
    }
  }

  /** The trim is empty exactly when the string is all white space. */
  lemma TrimEmpty(s: string)
    ensures TrimEnd(TrimStart(s)) == [] <==> forall i :: 0 <= i < |s| ==> IsJsSpace(s[i])
  {
    var t := TrimStart(s);
    if t != [] {
      assert t[0] == s[|s| - |t|];
      assert TrimEnd(t) != [] by {
        assert !IsJsSpace(t[0]);
      }
    }
  }

  /** Trimming a trimmed string changes nothing. */
  lemma TrimIdempotent(s: string)
    ensures Trim(Trim(s)) == Trim(s)
  {
    var r := Trim(s);
    if r != [] {
      assert TrimStart(r) == r;
      assert TrimEnd(r) == r;
    }
  }

  /** `pat` occurs in `s` starting at index `i`. */
  predicate OccursAt(s: string, pat: string, i: nat) {
    i + |pat| <= |s| && s[i..i + |pat|] == pat
  }

  /** `indexOf(pat, from)`: the first occurrence of `pat` at or after `from`. */
  function IndexOfFrom(s: string, pat: string, from: nat): (r: Option<nat>)
    decreases |s| - from
    ensures r.Some? ==> from <= r.value && OccursAt(s, pat, r.value)
    ensures r.Some? ==> forall j: nat :: from <= j < r.value ==> !OccursAt(s, pat, j)
    ensures r.None? ==> forall j: nat :: from <= j ==> !OccursAt(s, pat, j)
  {
    if from + |pat| > |s| then None
    else if s[from..from + |pat|] == pat then Some(from)
    else IndexOfFrom(s, pat, from + 1)
  }

  /**
    `s.replace(pat, rep)` with a string pattern: only the first occurrence is
    replaced; without an occurrence the string is returned unchanged. `rep` is
    inserted literally, which is what JavaScript does when it holds no `$`.
   */
  function ReplaceFirst(s: string, pat: string, rep: string): (r: string)
    ensures (forall j: nat :: !OccursAt(s, pat, j)) ==> r == s
    ensures forall i: nat ::
              OccursAt(s, pat, i) && (forall j: nat :: j < i ==> !OccursAt(s, pat, j)) ==>
              r == s[..i] + rep + s[i + |pat|..]
    ensures |pat| == |rep| ==> |r| == |s|
    ensures forall c :: c in r ==> c in s || c in rep
  {
    match IndexOfFrom(s, pat, 0)
    case None => s
    case Some(i) =>
      assert forall c :: c in s[..i] || c in s[i + |pat|..] ==> c in s;
      s[..i] + rep + s[i + |pat|..]
  }
}
