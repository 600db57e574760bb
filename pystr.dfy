/** The Python string built-ins the script relies on (`str.isspace` through
    `str.strip`, `str.lower`, `str.isdigit`, `str.join`), restricted to ASCII:
    characters outside ASCII are neither whitespace, letters nor digits here. */
module PyStr {

  /** `str.isspace` on ASCII: space, the controls \t \n \v \f \r, and the
      information separators \x1c to \x1f. */
  predicate IsSpace(c: char)
  {
    c == ' ' || '\t' <= c <= '\r' || '\U{1C}' <= c <= '\U{1F}'
  }

  predicate IsUpper(c: char)
  {
    'A' <= c <= 'Z'
  }

  /** `str.isdigit` on ASCII. */
  predicate IsDigit(c: char)
  {
    '0' <= c <= '9'
  }

  /** `str.lower` on one ASCII character. */
  function Lower(c: char): char
  {
    if IsUpper(c) then (c as int - 'A' as int + 'a' as int) as char else c
  }

  /** `str.lower`: every character lower-cased, nothing else touched. */
  function LowerStr(s: string): (r: string)
    ensures |r| == |s|
  {
    seq(|s|, i requires 0 <= i < |s| => Lower(s[i]))
  }

  /** Leading whitespace removed. */
  function TrimStart(s: string): string
  {
    if |s| > 0 && IsSpace(s[0]) then TrimStart(s[1..]) else s
  }

  /** Trailing whitespace removed. */
  function TrimEnd(s: string): string
  {
    if |s| > 0 && IsSpace(s[|s| - 1]) then TrimEnd(s[..|s| - 1]) else s
  }

  /** `str.strip()` with no argument. */
  function Strip(s: string): string
  {
    TrimEnd(TrimStart(s))
  }

  /** Neither the first nor the last character is whitespace. */
  predicate NoEdgeSpace(s: string)
  {
    s == [] || (!IsSpace(s[0]) && !IsSpace(s[|s| - 1]))
  }

  predicate AllSpace(s: string)
  {
    forall k :: 0 <= k < |s| ==> IsSpace(s[k])
  }

  /** `sep.join(parts)`. */
  function Join(parts: seq<string>, sep: string): string
  {
    if |parts| == 0 then "" else if |parts| == 1 then parts[0] else parts[0] + sep + Join(parts[1..], sep)
  }

  // Lower-casing

  /** No upper-case letter survives `Lower`, it never changes whether a
      character is whitespace or a digit, and it changes letters only. */
  lemma LowerChar(c: char)
    ensures !IsUpper(Lower(c))
    ensures IsSpace(Lower(c)) == IsSpace(c) && IsDigit(Lower(c)) == IsDigit(c)
    ensures Lower(c) != c ==> IsUpper(c)
  {
  }

  lemma LowerStrNoUpper(s: string)
    ensures forall i :: 0 <= i < |s| ==> !IsUpper(LowerStr(s)[i])
  {
  }

  lemma LowerStrIdempotent(s: string)
    ensures LowerStr(LowerStr(s)) == LowerStr(s)
  {
    forall i | 0 <= i < |s| ensures Lower(LowerStr(s)[i]) == LowerStr(s)[i] {
      LowerChar(s[i]);
    }
  }

  /** Lower-casing keeps whitespace where it was, so it keeps a stripped
      string stripped. */
  lemma LowerStrNoEdgeSpace(s: string)
    requires NoEdgeSpace(s)
    ensures NoEdgeSpace(LowerStr(s))
  {
    if s != [] {
      LowerChar(s[0]);
      LowerChar(s[|s| - 1]);
    }
  }

  // Stripping

  /** `TrimStart` drops exactly the maximal whitespace prefix. */
  lemma {:induction false} TrimStartSlice(s: string) returns (i: nat)
    ensures i <= |s| && TrimStart(s) == s[i..]
    ensures AllSpace(s[..i])
    ensures i < |s| ==> !IsSpace(s[i])
  {
    if |s| > 0 && IsSpace(s[0]) {
      var j := TrimStartSlice(s[1..]);
      i := j + 1;
      assert s[1..][j..] == s[i..];
      forall k | 0 <= k < i ensures IsSpace(s[..i][k]) {
        if k > 0 {
          assert s[..i][k] == s[1..][..j][k - 1];
        }
      }
    } else {
      i := 0;
    }
  }

  /** `TrimEnd` drops exactly the maximal whitespace suffix. */
  lemma {:induction false} TrimEndSlice(s: string) returns (j: nat)
    ensures j <= |s| && TrimEnd(s) == s[..j]
    ensures AllSpace(s[j..])
    ensures j > 0 ==> !IsSpace(s[j - 1])
  {
    if |s| > 0 && IsSpace(s[|s| - 1]) {
      var init := s[..|s| - 1];
      j := TrimEndSlice(init);
      assert init[..j] == s[..j];
      forall k | 0 <= k < |s| - j ensures IsSpace(s[j..][k]) {
        if j + k < |s| - 1 {
          assert s[j..][k] == init[j..][k];
        }
      }
    } else {
      j := |s|;
    }
  }

  /** `Strip(s)` is the slice `s[i..j]` left after removing the maximal
      whitespace prefix and suffix. */
  lemma StripSlice(s: string) returns (i: nat, j: nat)
    ensures i <= j <= |s| && Strip(s) == s[i..j]
    ensures AllSpace(s[..i]) && AllSpace(s[j..])
    ensures NoEdgeSpace(s[i..j])
  {
    i := TrimStartSlice(s);
    var m := TrimEndSlice(s[i..]);
    j := i + m;
    assert s[i..][..m] == s[i..j];
    assert s[i..][m..] == s[j..];
    if i == |s| {
      assert s[i..j] == [];
    }
  }

  /** A string without edge whitespace is a fixed point of `Strip`. */
  lemma StripFixed(s: string)
    requires NoEdgeSpace(s)
    ensures Strip(s) == s
  {
    assert TrimStart(s) == s;
  }

  /** `Strip` changes nothing exactly when there is no whitespace at either end. */
  lemma StripIdentity(s: string)
    ensures Strip(s) == s <==> NoEdgeSpace(s)
  {
    var i, j := StripSlice(s);
    if NoEdgeSpace(s) {
      StripFixed(s);
    }
  }

  lemma StripIdempotent(s: string)
    ensures Strip(Strip(s)) == Strip(s)
  {
    var i, j := StripSlice(s);
    StripFixed(s[i..j]);
  }

  // Joining

  /** Every part of a join appears in it, at some offset. */
  lemma {:induction false} JoinContains(parts: seq<string>, sep: string, k: nat) returns (at: nat)
    requires k < |parts|
    ensures at + |parts[k]| <= |Join(parts, sep)|
    ensures Join(parts, sep)[at..at + |parts[k]|] == parts[k]
  {
    if |parts| == 1 {
      at := 0;
    } else if k == 0 {
      at := 0;
      assert Join(parts, sep) == parts[0] + (sep + Join(parts[1..], sep));
    } else {
      var rest := JoinContains(parts[1..], sep, k - 1);
      var lead := parts[0] + sep;
      at := |lead| + rest;
      assert Join(parts, sep) == lead + Join(parts[1..], sep);
      assert Join(parts, sep)[at..at + |parts[k]|] == Join(parts[1..], sep)[rest..rest + |parts[k]|];
    }
  }
}
