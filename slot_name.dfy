/**
  `formatSlotName`, which both panels define identically: the label shown for
  a slot such as `underwearTop` or `left-ear`. It is four passes in a row:
  split camelCase, upper-case the first character, turn hyphens into spaces,
  and capitalise the first `underwear`.
 */
module SlotName {
  import opened Text

  /** Number of adjacent pairs "ASCII lower-case letter, ASCII upper-case letter". */
  function CamelPairs(s: string): nat {
    if |s| < 2 then 0
    else (if IsAsciiLower(s[0]) && IsAsciiUpper(s[1]) then 1 else 0) + CamelPairs(s[1..])
  }

  /**
    `replace(/([a-z])([A-Z])/g, '$1 $2')`: the regular expression scans left to
    right, and each match consumes both of its letters before the scan resumes.
    One space is inserted per camelCase pair; the first character stays in place.
   */
  function SplitCamel(s: string): (r: string)
    ensures |r| == |s| + CamelPairs(s)
    ensures s != [] ==> r != [] && r[0] == s[0]
  {
    if |s| < 2 then s
    else if IsAsciiLower(s[0]) && IsAsciiUpper(s[1]) then
      // s[1] is upper-case, so it cannot start another pair: the match that
      // consumes it loses nothing.
      assert CamelPairs(s[1..]) == CamelPairs(s[2..]);
      [s[0], ' ', s[1]] + SplitCamel(s[2..])
    else
      [s[0]] + SplitCamel(s[1..])
  }

  /** A name without ASCII upper-case letters gets no space inserted. */
  lemma {:induction false} SplitCamelNoUpper(s: string)
    requires forall k :: 0 <= k < |s| ==> !IsAsciiUpper(s[k])
    ensures SplitCamel(s) == s
  {
    if |s| >= 2 {
      SplitCamelNoUpper(s[1..]);
    }
  }

  /** The camelCase pairs that end at or before index `i`. */
  function PairsThrough(s: string, i: nat): nat
    requires i < |s|
  {
    CamelPairs(s[..i + 1])
  }

  /** Counting the pairs up to `i` one character at a time from the front. */
  lemma PairsThroughStep(s: string, i: nat)
    requires 1 <= i < |s|
    ensures PairsThrough(s, i) ==
      (if IsAsciiLower(s[0]) && IsAsciiUpper(s[1]) then 1 else 0) + PairsThrough(s[1..], i - 1)
  {
    assert s[..i + 1][1..] == s[1..][..i];
  }

  /** After a pair at the front, counting resumes two characters further on. */
  lemma PairsThroughAfterPair(s: string, i: nat)
    requires 2 <= i < |s| && IsAsciiLower(s[0]) && IsAsciiUpper(s[1])
    ensures PairsThrough(s, i) == 1 + PairsThrough(s[2..], i - 2)
  {
    PairsThroughStep(s, i);
    PairsThroughStep(s[1..], i - 1);
    assert s[1..][1..] == s[2..];
  }

  /** The character at index `i` moves right by the number of pairs completed up to it. */
  lemma {:induction false} SplitCamelKeeps(s: string, i: nat)
    requires i < |s|
    ensures i + PairsThrough(s, i) < |SplitCamel(s)|
    ensures SplitCamel(s)[i + PairsThrough(s, i)] == s[i]
    decreases |s|
  {
    if |s| >= 2 && i > 0 {
      if IsAsciiLower(s[0]) && IsAsciiUpper(s[1]) {
        if i == 1 {
          PairsThroughStep(s, 1);
        } else {
          PairsThroughAfterPair(s, i);
          SplitCamelKeeps(s[2..], i - 2);
        }
      } else {
        PairsThroughStep(s, i);
        SplitCamelKeeps(s[1..], i - 1);
      }
    } else {
      assert i == 0 && |s[..1]| == 1;
    }
  }

  /** The lower-case letter of a pair is directly followed by the inserted space. */
  lemma {:induction false} SplitCamelSpaces(s: string, j: nat)
    requires j + 1 < |s| && IsAsciiLower(s[j]) && IsAsciiUpper(s[j + 1])
    ensures j + PairsThrough(s, j) + 1 < |SplitCamel(s)|
    ensures SplitCamel(s)[j + PairsThrough(s, j) + 1] == ' '
    decreases |s|
  {
    if j > 0 {
      if IsAsciiLower(s[0]) && IsAsciiUpper(s[1]) {
        assert j >= 2 by { assert !IsAsciiLower(s[1]); }
        PairsThroughAfterPair(s, j);
        SplitCamelSpaces(s[2..], j - 2);
      } else {
        PairsThroughStep(s, j);
        SplitCamelSpaces(s[1..], j - 1);
      }
    } else {
      assert |s[..1]| == 1;
    }
  }

  /**
    Where the camelCase split puts things: every character of `s` is kept, in
    order, shifted by the pairs completed up to it, and each pair's lower-case
    letter is followed by a space. With the length in `SplitCamel`'s contract,
    this fixes the whole result.
   */
  lemma SplitCamelPlaces(s: string)
    ensures forall i: nat :: i < |s| ==>
      i + PairsThrough(s, i) < |SplitCamel(s)| && SplitCamel(s)[i + PairsThrough(s, i)] == s[i]
    ensures forall j: nat :: j + 1 < |s| && IsAsciiLower(s[j]) && IsAsciiUpper(s[j + 1]) ==>
      j + PairsThrough(s, j) + 1 < |SplitCamel(s)| && SplitCamel(s)[j + PairsThrough(s, j) + 1] == ' '
  {
    forall i: nat | i < |s| ensures
      i + PairsThrough(s, i) < |SplitCamel(s)| && SplitCamel(s)[i + PairsThrough(s, i)] == s[i]
    {
      SplitCamelKeeps(s, i);
    }
    forall j: nat | j + 1 < |s| && IsAsciiLower(s[j]) && IsAsciiUpper(s[j + 1]) ensures
      j + PairsThrough(s, j) + 1 < |SplitCamel(s)| && SplitCamel(s)[j + PairsThrough(s, j) + 1] == ' '
    {
      SplitCamelSpaces(s, j);
    }
  }

  /** `replace(/^./, str => str.toUpperCase())`: the first character is upper-cased, the rest kept. */
  function CapitalizeFirst(s: string): (r: string)
    ensures |r| == |s|
    ensures s != [] ==> r[0] == UpperChar(s[0]) && r[1..] == s[1..]
  {
    if s == [] then [] else [UpperChar(s[0])] + s[1..]
  }

  /** `replace(/-/g, ' ')`: every hyphen becomes a space and nothing else changes. */
  function HyphensToSpaces(s: string): (r: string)
    ensures |r| == |s|
    ensures '-' !in r
    ensures forall i :: 0 <= i < |s| && s[i] == '-' ==> r[i] == ' '
    ensures forall i :: 0 <= i < |s| && s[i] != '-' ==> r[i] == s[i]
  {
    seq(|s|, i requires 0 <= i < |s| => if s[i] == '-' then ' ' else s[i])
  }

  /** The label before the last pass, which capitalises the first `underwear`. */
  function Unreplaced(name: string): string {
    HyphensToSpaces(CapitalizeFirst(SplitCamel(name)))
  }

  function FormatSlotName(name: string): string {
    ReplaceFirst(Unreplaced(name), "underwear", "Underwear")
  }

  /** The label is one character longer than the name per camelCase pair. */
  lemma FormatSlotNameLength(name: string)
    ensures |FormatSlotName(name)| == |name| + CamelPairs(name)
  {
  }

  /** No label contains a hyphen. */
  lemma FormatSlotNameHasNoHyphen(name: string)
    ensures '-' !in FormatSlotName(name)
  {
    assert '-' !in "Underwear";
  }

  /** A name that starts with an ASCII lower-case letter gets a label that starts with its upper case. */
  lemma FormatSlotNameCapitalizes(name: string)
    requires name != [] && IsAsciiLower(name[0])
    ensures FormatSlotName(name) != [] && FormatSlotName(name)[0] == UpperChar(name[0])
  {
    var m := Unreplaced(name);
    assert m[0] == UpperChar(name[0]);
    var found := IndexOfFrom(m, "underwear", 0);
    if found.Some? {
      var i := found.value;
      assert m[i] == m[i..i + 9][0] == 'u';
      assert FormatSlotName(name) == m[..i] + "Underwear" + m[i + 9..];
    }
  }

  /**
    Only the first `underwear` of the intermediate label is replaced: the label
    agrees with it everywhere except at the nine characters of that occurrence,
    so a later `underwear` is left as it is.
   */
  lemma FormatSlotNameReplacesFirstOnly(name: string, i: nat)
    requires OccursAt(Unreplaced(name), "underwear", i)
    requires forall j: nat :: j < i ==> !OccursAt(Unreplaced(name), "underwear", j)
    ensures |FormatSlotName(name)| == |Unreplaced(name)|
    ensures FormatSlotName(name)[i..i + 9] == "Underwear"
    ensures forall k :: 0 <= k < |Unreplaced(name)| && !(i <= k < i + 9) ==>
              FormatSlotName(name)[k] == Unreplaced(name)[k]
  {
    var m := Unreplaced(name);
    var r := FormatSlotName(name);
    assert r == m[..i] + "Underwear" + m[i + 9..];
    forall k | 0 <= k < |m| && !(i <= k < i + 9) ensures r[k] == m[k] {
      if k < i { assert r[k] == m[..i][k]; } else { assert r[k] == m[i + 9..][k - i - 9]; }
    }
  }

  /** A label without any `underwear` is the intermediate label itself. */
  lemma FormatSlotNameWithoutUnderwear(name: string)
    requires forall j: nat :: !OccursAt(Unreplaced(name), "underwear", j)
    ensures FormatSlotName(name) == Unreplaced(name)
  {
  }
}
