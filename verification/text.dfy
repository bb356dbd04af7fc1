/**
 * String helpers with the JavaScript meaning the clinic code relies on:
 * `\s` / `trim()` white space, `toLowerCase()`, `includes()`, `join()`,
 * `split()` on a one-character separator and `replace()` of the first
 * occurrence of a literal pattern.
 */
module Text {

  import opened Wrappers

  /** A JavaScript white-space character: the set matched by `\s` and removed by `trim()`. */
  predicate IsSpace(c: char)
  {
    c == ' ' || c == '\t' || c == '\n' || c == '\r' || c == '\U{000B}' || c == '\U{000C}'
    || c == '\U{00A0}' || c == '\U{1680}' || ('\U{2000}' <= c <= '\U{200A}')
    || c == '\U{2028}' || c == '\U{2029}' || c == '\U{202F}' || c == '\U{205F}'
    || c == '\U{3000}' || c == '\U{FEFF}'
  }

  predicate IsUpper(c: char) { 'A' <= c <= 'Z' }

  function LowerChar(c: char): (r: char)
    ensures !IsUpper(r)
    ensures IsUpper(c) ==> r as int == c as int + 32
    ensures !IsUpper(c) ==> r == c
  {
    if IsUpper(c) then (c as int + 32) as char else c
  }

  /** `toLowerCase()`, restricted to the ASCII letters. */
  function Lower(s: string): (r: string)
    ensures |r| == |s|
    ensures forall i :: 0 <= i < |s| ==> r[i] == LowerChar(s[i])
  {
    seq(|s|, i requires 0 <= i < |s| => LowerChar(s[i]))
  }

  lemma LowerIdempotent(s: string)
    ensures Lower(Lower(s)) == Lower(s)
  {
  }

  lemma LowerAppend(a: string, b: string)
    ensures Lower(a + b) == Lower(a) + Lower(b)
  {
  }

  // ---------------------------------------------------------------------
  // Substring search (`includes`)

  predicate OccursAt(s: string, k: string, i: int)
  {
    0 <= i && i + |k| <= |s| && s[i..i + |k|] == k
  }

  /** `s.includes(k)`: `k` occurs somewhere in `s`. */
  predicate Contains(s: string, k: string)
  {
    exists i :: 0 <= i <= |s| && OccursAt(s, k, i)
  }

  lemma ContainsSelf(s: string)
    ensures Contains(s, s) && Contains(s, "")
  {
    assert OccursAt(s, s, 0);
    assert OccursAt(s, "", 0);
  }

  /**
   * Some word of `words` occurs in `s`: the unanchored test of a regular
   * expression that is an alternation of plain words, or a chain of
   * `includes` calls joined by `||`.
   */
  predicate MentionsAny(s: string, words: seq<string>)
  {
    exists i :: 0 <= i < |words| && Contains(s, words[i])
  }

  /** A string keeps every substring of its parts when something is added on either side. */
  lemma ContainsInFix(a: string, k: string, b: string)
    ensures Contains(a + k + b, k)
  {
    assert (a + k + b)[|a|..|a| + |k|] == k;
    assert OccursAt(a + k + b, k, |a|);
  }

  lemma ContainsExtend(a: string, s: string, b: string, k: string)
    requires Contains(s, k)
    ensures Contains(a + s + b, k)
  {
    var i :| 0 <= i <= |s| && OccursAt(s, k, i);
    assert (a + s + b)[|a| + i..|a| + i + |k|] == s[i..i + |k|];
    assert OccursAt(a + s + b, k, |a| + i);
  }

  /** A pattern one of whose characters never appears in `s` does not occur in `s`. */
  lemma AbsentChar(s: string, k: string, j: nat)
    requires j < |k|
    requires forall i :: 0 <= i < |s| ==> s[i] != k[j]
    ensures !Contains(s, k)
  {
    forall i | 0 <= i <= |s| ensures !OccursAt(s, k, i) {
      if i + |k| <= |s| {
        assert s[i..i + |k|][j] == s[i + j];
      }
    }
  }

  /** Lower-casing the text commutes with searching for a pattern that is already lower case. */
  lemma ContainsLower(s: string, k: string)
    requires Lower(k) == k
    ensures Contains(Lower(s), k) <==> Contains(Lower(Lower(s)), k)
  {
    LowerIdempotent(s);
  }

  // ---------------------------------------------------------------------
  // `join`

  /** `parts.join(sep)`: the parts in order, with `sep` between consecutive parts. */
  function Join(parts: seq<string>, sep: string): (r: string)
    ensures parts == [] ==> r == ""
    ensures |parts| == 1 ==> r == parts[0]
  {
    if |parts| == 0 then ""
    else if |parts| == 1 then parts[0]
    else parts[0] + sep + Join(parts[1..], sep)
  }

  /** Joining two non-empty lists is joining each and putting one separator between them. */
  lemma {:induction false} JoinAppend(a: seq<string>, b: seq<string>, sep: string)
    requires a != [] && b != []
    ensures Join(a + b, sep) == Join(a, sep) + sep + Join(b, sep)
  {
    if |a| == 1 {
      assert (a + b)[1..] == b;
    } else {
      assert (a + b)[1..] == a[1..] + b;
      JoinAppend(a[1..], b, sep);
    }
  }

  /** The join starts with the first part, so it is non-empty when that part is. */
  lemma {:induction false} JoinStartsWithFirst(parts: seq<string>, sep: string)
    requires parts != []
    ensures |Join(parts, sep)| >= |parts[0]|
    ensures Join(parts, sep)[..|parts[0]|] == parts[0]
  {
    if |parts| > 1 {
      var rest := sep + Join(parts[1..], sep);
      assert Join(parts, sep) == parts[0] + rest;
    }
  }

  /** Every part occurs in the join. */
  lemma {:induction false} JoinContainsPart(parts: seq<string>, sep: string, i: int)
    requires 0 <= i < |parts|
    ensures Contains(Join(parts, sep), parts[i])
  {
    if |parts| == 1 {
      ContainsSelf(parts[0]);
    } else if i == 0 {
      ContainsInFix("", parts[0], sep + Join(parts[1..], sep));
      assert "" + parts[0] + (sep + Join(parts[1..], sep)) == Join(parts, sep);
    } else {
      JoinContainsPart(parts[1..], sep, i - 1);
      ContainsExtend(parts[0] + sep, Join(parts[1..], sep), "", parts[i]);
      assert parts[0] + sep + Join(parts[1..], sep) + "" == Join(parts, sep);
    }
  }

  // ---------------------------------------------------------------------
  // `split` on a one-character separator

  /** The index of the first `c` in `s`, or `|s|` when there is none. */
  function IndexOfChar(s: string, c: char): (i: nat)
    ensures i <= |s|
    ensures i < |s| ==> s[i] == c
    ensures forall j :: 0 <= j < i ==> s[j] != c
  {
    if |s| == 0 then 0
    else if s[0] == c then 0
    else 1 + IndexOfChar(s[1..], c)
  }

  /** `s.split(c)`: the pieces between the occurrences of `c`; an empty string gives `[""]`. */
  function Split(s: string, c: char): (r: seq<string>)
    ensures |r| >= 1
    ensures forall k :: 0 <= k < |r| ==> c !in r[k]
    decreases |s|
  {
    var i := IndexOfChar(s, c);
    if i == |s| then [s] else [s[..i]] + Split(s[i + 1..], c)
  }

  /** Splitting at a piece without the separator, followed by the separator, peels that piece off. */
  lemma SplitCons(a: string, c: char, b: string)
    requires c !in a
    ensures Split(a + [c] + b, c) == [a] + Split(b, c)
  {
    var s := a + [c] + b;
    var i := IndexOfChar(s, c);
    assert s[|a|] == c;
    assert i == |a|;
    assert s[..i] == a && s[i + 1..] == b;
  }

  lemma SplitNoSeparator(s: string, c: char)
    requires c !in s
    ensures Split(s, c) == [s]
  {
  }

  /** `c` occurs at `i` and again right after it. */
  predicate DoubledAt(s: string, c: char, i: int)
  {
    0 <= i && i + 1 < |s| && s[i] == c && s[i + 1] == c
  }

  /**
   * The string is empty, starts or ends with `c`, or has `c` twice in a row:
   * exactly the strings whose split on `c` has an empty piece.
   */
  predicate HasEmptyGap(s: string, c: char)
  {
    s == [] || s[0] == c || s[|s| - 1] == c || exists i :: 0 <= i < |s| && DoubledAt(s, c, i)
  }

  /** The split on `c` has an empty piece exactly when the string has an empty gap. */
  lemma {:induction false} SplitEmptyPiece(s: string, c: char)
    ensures "" in Split(s, c) <==> HasEmptyGap(s, c)
    decreases |s|
  {
    var i := IndexOfChar(s, c);
    if i < |s| {
      var rest := s[i + 1..];
      SplitEmptyPiece(rest, c);
      assert Split(s, c) == [s[..i]] + Split(rest, c);
      if HasEmptyGap(rest, c) && rest != [] && rest[0] != c && rest[|rest| - 1] != c {
        var j :| 0 <= j < |rest| && DoubledAt(rest, c, j);
        assert DoubledAt(s, c, i + 1 + j);
      }
      if rest != [] && rest[0] == c {
        assert DoubledAt(s, c, i);
      }
      if (exists j :: 0 <= j < |s| && DoubledAt(s, c, j)) && i > 0 {
        var j :| 0 <= j < |s| && DoubledAt(s, c, j);
        if j > i {
          assert DoubledAt(rest, c, j - i - 1);
        }
      }
    } else if s != [] {
      assert s[0] != c && s[|s| - 1] != c;
      forall j | 0 <= j < |s| ensures !DoubledAt(s, c, j) {
      }
    }
  }

  /** Lower-casing keeps every space where it was and creates none, so it keeps the empty gaps of a split on spaces. */
  lemma LowerKeepsSpaces(s: string)
    ensures ' ' in Lower(s) <==> ' ' in s
    ensures HasEmptyGap(Lower(s), ' ') <==> HasEmptyGap(s, ' ')
  {
    var t := Lower(s);
    assert forall i :: 0 <= i < |s| ==> (t[i] == ' ' <==> s[i] == ' ');
    forall i ensures DoubledAt(t, ' ', i) <==> DoubledAt(s, ' ', i) {
    }
    if ' ' in s {
      var i :| 0 <= i < |s| && s[i] == ' ';
      assert t[i] == ' ';
    }
  }

  /** Joining the pieces with the separator gives back the original string. */
  lemma {:induction false} SplitJoin(s: string, c: char)
    ensures Join(Split(s, c), [c]) == s
    decreases |s|
  {
    var i := IndexOfChar(s, c);
    if i < |s| {
      var rest := s[i + 1..];
      var parts := Split(s, c);
      assert parts == [s[..i]] + Split(rest, c);
      assert parts[1..] == Split(rest, c);
      assert Join(parts, [c]) == s[..i] + [c] + Join(Split(rest, c), [c]);
      SplitJoin(rest, c);
      assert s == s[..i] + [c] + rest;
    }
  }

  // ---------------------------------------------------------------------
  // `trim`, `replace`

  /** `s.trim()`: `s` without its leading and trailing white space. */
  function Trim(s: string): (r: string)
    decreases |s|
  {
    if |s| > 0 && IsSpace(s[0]) then Trim(s[1..])
    else if |s| > 0 && IsSpace(s[|s| - 1]) then Trim(s[..|s| - 1])
    else s
  }

  /** `!s.trim()`: the trimmed string is empty exactly when every character is white space. */
  lemma {:induction false} TrimEmptyIff(s: string)
    ensures Trim(s) == "" <==> forall i :: 0 <= i < |s| ==> IsSpace(s[i])
    decreases |s|
  {
    if |s| > 0 && IsSpace(s[0]) {
      TrimEmptyIff(s[1..]);
      assert forall i :: 1 <= i < |s| ==> s[i] == s[1..][i - 1];
    } else if |s| > 0 && IsSpace(s[|s| - 1]) {
      TrimEmptyIff(s[..|s| - 1]);
    }
  }

  /** The index of the first occurrence of `pat` in `s`, if any. */
  function IndexOf(s: string, pat: string): (r: Option<nat>)
    ensures r.Some? ==> OccursAt(s, pat, r.value)
    ensures r.Some? ==> forall j :: 0 <= j < r.value ==> !OccursAt(s, pat, j)
    ensures r.None? ==> !Contains(s, pat)
    decreases |s|
  {
    if OccursAt(s, pat, 0) then Some(0)
    else if |s| == 0 then None
    else
      var rest := IndexOf(s[1..], pat);
      ShiftOccurrence(s, pat);
      if rest.None? then None else Some(rest.value + 1)
  }

  /** An occurrence at a positive index of `s` is an occurrence at one less in `s[1..]`. */
  lemma ShiftOccurrence(s: string, pat: string)
    requires |s| > 0
    ensures forall j :: 1 <= j <= |s| ==> (OccursAt(s, pat, j) <==> OccursAt(s[1..], pat, j - 1))
  {
    forall j | 1 <= j <= |s| ensures OccursAt(s, pat, j) <==> OccursAt(s[1..], pat, j - 1) {
      if j + |pat| <= |s| {
        var t := s[1..];
        var here, there := s[j..j + |pat|], t[j - 1..j - 1 + |pat|];
        forall m | 0 <= m < |pat| ensures here[m] == there[m] {
          assert t[j - 1 + m] == s[j + m];
        }
        assert here == there;
      }
    }
  }

  /** `s.replace(pat, rep)` with a string pattern: only the first occurrence is replaced. */
  function ReplaceFirst(s: string, pat: string, rep: string): (r: string)
    ensures !Contains(s, pat) ==> r == s
  {
    match IndexOf(s, pat)
    case None => s
    case Some(i) => s[..i] + rep + s[i + |pat|..]
  }

  /** A string that starts with the pattern loses exactly that prefix. */
  lemma ReplaceFirstPrefix(pat: string, rest: string)
    ensures ReplaceFirst(pat + rest, pat, "") == rest
  {
    assert (pat + rest)[0..|pat|] == pat;
    assert OccursAt(pat + rest, pat, 0);
    assert (pat + rest)[|pat|..] == rest;
  }

  // ---------------------------------------------------------------------
  // Template literals

  /**
   * A template literal: the fixed pieces `pieces[0] + values[0] + pieces[1]
   * + ... + values[n - 1] + pieces[n]`.
   */
  function Interpolate(pieces: seq<string>, values: seq<string>): (r: string)
    requires |pieces| == |values| + 1
    decreases |values|
  {
    if values == [] then pieces[0]
    else Interpolate(pieces[..|pieces| - 1], values[..|values| - 1]) + values[|values| - 1] + pieces[|pieces| - 1]
  }

  /** Every interpolated value occurs in the text. */
  lemma {:induction false} InterpolateContains(pieces: seq<string>, values: seq<string>, i: nat)
    requires |pieces| == |values| + 1 && i < |values|
    ensures Contains(Interpolate(pieces, values), values[i])
    decreases |values|
  {
    var front := Interpolate(pieces[..|pieces| - 1], values[..|values| - 1]);
    var last := values[|values| - 1];
    if i == |values| - 1 {
      ContainsInFix(front, last, pieces[|pieces| - 1]);
    } else {
      InterpolateContains(pieces[..|pieces| - 1], values[..|values| - 1], i);
      ContainsExtend("", front, last + pieces[|pieces| - 1], values[i]);
      assert "" + front + (last + pieces[|pieces| - 1]) == front + last + pieces[|pieces| - 1];
    }
  }
}
