/** The JavaScript string operations the application uses: `toLowerCase`,
    `includes`, `startsWith`, `trim`, `split` on one character and a global
    `replace` of a literal pattern. Strings are sequences of characters
    (Unicode scalar values); JavaScript's UTF-16 code units are not modelled. */
module Text {
  import Seqs

  /** `toLowerCase` on one code unit, for the ASCII letters. */
  function LowerChar(c: char): char {
    if 'A' <= c <= 'Z' then (c as int + 32) as char else c
  }

  function Lower(s: string): (r: string)
    ensures |r| == |s|
    ensures forall i :: 0 <= i < |s| ==> r[i] == LowerChar(s[i])
  {
    seq(|s|, i requires 0 <= i < |s| => LowerChar(s[i]))
  }

  /** Lowering twice is lowering once. */
  lemma LowerIdempotent(s: string)
    ensures Lower(Lower(s)) == Lower(s)
  {
    assert forall i :: 0 <= i < |s| ==> LowerChar(LowerChar(s[i])) == LowerChar(s[i]);
  }

  predicate StartsWith(s: string, prefix: string) {
    |prefix| <= |s| && s[..|prefix|] == prefix
  }

  /** `s.includes(p)`: `p` occurs in `s` at some position. */
  predicate Includes(s: string, p: string)
    decreases |s|
  {
    if |s| < |p| then false
    else StartsWith(s, p) || Includes(s[1..], p)
  }

  lemma {:induction false} IncludesSuffix(s: string, k: nat, p: string)
    requires k <= |s| && Includes(s[k..], p)
    ensures Includes(s, p)
    decreases k
  {
    if k > 0 {
      assert s[1..][k - 1..] == s[k..];
      IncludesSuffix(s[1..], k - 1, p);
    }
  }

  lemma {:induction false} IncludesPrefix(s: string, k: nat, p: string)
    requires k <= |s| && Includes(s[..k], p)
    ensures Includes(s, p)
    decreases k
  {
    if !StartsWith(s[..k], p) {
      assert s[..k][1..] == s[1..][..k - 1];
      IncludesPrefix(s[1..], k - 1, p);
    } else {
      assert s[..|p|] == s[..k][..|p|];
    }
  }

  /** A string that contains `p + q` contains `p`. */
  lemma {:induction false} IncludesLonger(s: string, p: string, q: string)
    requires Includes(s, p + q)
    ensures Includes(s, p)
    decreases |s|
  {
    if StartsWith(s, p + q) {
      assert s[..|p|] == (p + q)[..|p|] == p;
    } else {
      IncludesLonger(s[1..], p, q);
    }
  }

  /** The white space `trim` removes: the ASCII controls tab to carriage
      return, space, no-break space, the line and paragraph separators and the
      byte-order mark. */
  predicate IsSpace(c: char) {
    c == ' ' || c == '\t' || c == '\n' || c == '\r' || c == '\U{000B}' || c == '\U{000C}'
    || c == '\U{00A0}' || c == '\U{2028}' || c == '\U{2029}' || c == '\U{FEFF}'
  }

  /** No white space at either end. */
  predicate Trimmed(s: string) {
    s == [] || (!IsSpace(s[0]) && !IsSpace(s[|s| - 1]))
  }

  /** The length of the run of white space that `s` starts with. */
  function LeadSpaces(s: string): (n: nat)
    ensures n <= |s|
    ensures forall i :: 0 <= i < n ==> IsSpace(s[i])
    ensures n == |s| || !IsSpace(s[n])
  {
    if s != [] && IsSpace(s[0]) then 1 + LeadSpaces(s[1..]) else 0
  }

  /** The length of the run of white space that `s` ends with. */
  function TrailSpaces(s: string): (n: nat)
    ensures n <= |s|
    ensures forall i :: |s| - n <= i < |s| ==> IsSpace(s[i])
    ensures n == |s| || !IsSpace(s[|s| - 1 - n])
  {
    if s != [] && IsSpace(s[|s| - 1]) then 1 + TrailSpaces(s[..|s| - 1]) else 0
  }

  function TrimStart(s: string): string {
    s[LeadSpaces(s)..]
  }

  function TrimEnd(s: string): string {
    s[..|s| - TrailSpaces(s)]
  }

  /** `s.trim()`: a slice of `s` with no white space at either end. */
  function Trim(s: string): (r: string)
    ensures Trimmed(r)
    ensures |r| <= |s|
    ensures exists a, b ::
              && 0 <= a <= b <= |s| && r == s[a..b]
              && (forall k :: 0 <= k < a ==> IsSpace(s[k]))
              && (forall k :: b <= k < |s| ==> IsSpace(s[k]))
  {
    var a := LeadSpaces(s);
    var t := s[a..];
    var b := a + |t| - TrailSpaces(t);
    var r := TrimEnd(t);
    assert r == s[a..b];
    assert forall k :: b <= k < |s| ==> s[k] == t[k - a];
    assert r != [] ==> r[0] == t[0] && r[|r| - 1] == t[|t| - 1 - TrailSpaces(t)];
    r
  }

  /** Trimming keeps only text that was already in `s`. */
  lemma TrimIncludes(s: string, p: string)
    requires Includes(Trim(s), p)
    ensures Includes(s, p)
  {
    var t := TrimStart(s);
    IncludesPrefix(t, |Trim(s)|, p);
    IncludesSuffix(s, LeadSpaces(s), p);
  }

  /** Trimming cannot create an occurrence of `p`. */
  lemma TrimKeepsAbsent(s: string, p: string)
    requires !Includes(s, p)
    ensures !Includes(Trim(s), p)
  {
    if Includes(Trim(s), p) {
      TrimIncludes(s, p);
    }
  }

  /** A trimmed string is its own trim. */
  lemma TrimFixed(s: string)
    requires Trimmed(s)
    ensures Trim(s) == s
  {
  }

  /** `s.trim()` has no white space at its ends, so trimming again changes nothing. */
  lemma TrimIdempotent(s: string)
    ensures Trim(Trim(s)) == Trim(s)
  {
    TrimFixed(Trim(s));
  }

  function IndexOf(s: string, c: char): (i: nat)
    requires c in s
    ensures i < |s| && s[i] == c && c !in s[..i]
  {
    if s[0] == c then 0 else IndexOf(s[1..], c) + 1
  }

  /** `s.split(sep)` for a one-character separator: the pieces between the
      separators, one more piece than there are separators. */
  function Split(s: string, sep: char): (r: seq<string>)
    ensures |r| >= 1
    ensures forall k :: 0 <= k < |r| ==> sep !in r[k]
    decreases |s|
  {
    if sep !in s then [s]
    else
      var i := IndexOf(s, sep);
      [s[..i]] + Split(s[i + 1..], sep)
  }

  function Count(s: string, c: char): (n: nat)
    ensures n <= |s|
  {
    if s == [] then 0 else (if s[0] == c then 1 else 0) + Count(s[1..], c)
  }

  /** `parts.join(sep)`. */
  function Join(parts: seq<string>, sep: char): string
    requires |parts| >= 1
  {
    if |parts| == 1 then parts[0] else parts[0] + [sep] + Join(parts[1..], sep)
  }

  lemma {:induction false} CountConcat(a: string, b: string, c: char)
    ensures Count(a + b, c) == Count(a, c) + Count(b, c)
  {
    if a == [] {
      assert a + b == b;
    } else {
      assert (a + b)[1..] == a[1..] + b;
      CountConcat(a[1..], b, c);
    }
  }

  lemma {:induction false} CountAbsent(s: string, c: char)
    requires c !in s
    ensures Count(s, c) == 0
  {
    if s != [] {
      CountAbsent(s[1..], c);
    }
  }

  /** Joining the pieces with the separator gives back the string. */
  lemma {:induction false} SplitJoin(s: string, sep: char)
    ensures Join(Split(s, sep), sep) == s
    decreases |s|
  {
    if sep in s {
      var i := IndexOf(s, sep);
      var head, tail := s[..i], s[i + 1..];
      var rest := Split(tail, sep);
      SplitJoin(tail, sep);
      assert Split(s, sep) == [head] + rest;
      assert ([head] + rest)[1..] == rest;
      assert Join(Split(s, sep), sep) == head + [sep] + Join(rest, sep);
      assert s == head + [sep] + tail;
    }
  }

  /** There is exactly one more piece than there are separators. */
  lemma {:induction false} SplitCount(s: string, sep: char)
    ensures |Split(s, sep)| == Count(s, sep) + 1
    decreases |s|
  {
    if sep !in s {
      CountAbsent(s, sep);
    } else {
      var i := IndexOf(s, sep);
      var head, tail := s[..i], s[i + 1..];
      SplitCount(tail, sep);
      assert s == head + [sep] + tail;
      CountConcat(head + [sep], tail, sep);
      CountConcat(head, [sep], sep);
      CountAbsent(head, sep);
      assert Count([sep], sep) == 1;
    }
  }

  /** The first piece of a split: the text before the first separator, or the
      whole string when there is none. */
  lemma SplitHead(s: string, sep: char)
    ensures var h := Split(s, sep)[0];
      sep !in h && StartsWith(s, h) && (|h| < |s| ==> s[|h|] == sep) && (sep !in s ==> h == s)
  {
  }

  /** `s.replace(/p/g, '')`: every occurrence of `p`, found left to right and
      without overlap, is deleted. */
  function RemoveAll(s: string, p: string): (r: string)
    requires |p| > 0
    ensures |r| <= |s|
    ensures Includes(s, p) ==> |r| + |p| <= |s|
    decreases |s|
  {
    if |s| < |p| then s
    else if StartsWith(s, p) then RemoveAll(s[|p|..], p)
    else [s[0]] + RemoveAll(s[1..], p)
  }

  /** Removing a pattern that does not occur changes nothing. */
  lemma {:induction false} RemoveAbsent(s: string, p: string)
    requires |p| > 0 && !Includes(s, p)
    ensures RemoveAll(s, p) == s
    decreases |s|
  {
    if |s| >= |p| {
      RemoveAbsent(s[1..], p);
    }
  }

  /** Removal only deletes characters: what is left keeps its order. */
  lemma {:induction false} RemoveAllIsSubseq(s: string, p: string)
    requires |p| > 0
    ensures Seqs.IsSubseq(RemoveAll(s, p), s)
    decreases |s|
  {
    if |s| < |p| {
      Seqs.SubseqRefl(s);
    } else if StartsWith(s, p) {
      RemoveAllIsSubseq(s[|p|..], p);
      Seqs.SubseqOfSuffix(RemoveAll(s[|p|..], p), s, |p|);
    } else {
      var rest := RemoveAll(s[1..], p);
      RemoveAllIsSubseq(s[1..], p);
      assert ([s[0]] + rest)[1..] == rest;
    }
  }

  /** What removal deletes is whole copies of the pattern. */
  lemma {:induction false} RemoveAllDeletesCopies(s: string, p: string)
    requires |p| > 0
    ensures exists n: nat :: |s| == |RemoveAll(s, p)| + n * |p|
    decreases |s|
  {
    if |s| < |p| {
      assert |s| == |RemoveAll(s, p)| + 0 * |p|;
    } else if StartsWith(s, p) {
      RemoveAllDeletesCopies(s[|p|..], p);
      var n: nat :| |s| - |p| == |RemoveAll(s[|p|..], p)| + n * |p|;
      assert (n + 1) * |p| == n * |p| + |p|;
      assert |s| == |RemoveAll(s, p)| + (n + 1) * |p|;
    } else {
      RemoveAllDeletesCopies(s[1..], p);
      var n: nat :| |s| - 1 == |RemoveAll(s[1..], p)| + n * |p|;
      assert |s| == |RemoveAll(s, p)| + n * |p|;
    }
  }

  const Fence: string := "```"
  const JsonFence: string := "```json"

  /** The number of backticks at the start of `s`. */
  function LeadTicks(s: string): (n: nat)
    ensures n <= |s|
  {
    if s != [] && s[0] == '`' then 1 + LeadTicks(s[1..]) else 0
  }

  lemma LeadTicksFence(s: string)
    ensures StartsWith(s, Fence) <==> LeadTicks(s) >= 3
  {
    var three := |s| >= 3 && s[0] == '`' && s[1] == '`' && s[2] == '`';
    assert StartsWith(s, Fence) <==> three;
    if s != [] && s[0] == '`' {
      var t := s[1..];
      if t != [] && t[0] == '`' {
        var u := t[1..];
        assert u == s[2..];
        assert LeadTicks(s) == 1 + LeadTicks(t);
        assert LeadTicks(t) == 1 + LeadTicks(u);
        if u != [] && u[0] == '`' {
          assert LeadTicks(u) == 1 + LeadTicks(u[1..]);
        } else {
          assert LeadTicks(u) == 0;
        }
      } else {
        assert LeadTicks(s) == 1;
      }
    }
  }

  /** Fewer than three leading backticks survive removing the fences
      unchanged in number. */
  lemma {:induction false} RemoveKeepsShortLead(s: string)
    requires LeadTicks(s) < 3
    ensures LeadTicks(RemoveAll(s, Fence)) == LeadTicks(s)
    decreases |s|
  {
    LeadTicksFence(s);
    if |s| >= |Fence| && s[0] == '`' {
      var t := RemoveAll(s, Fence);
      assert t == [s[0]] + RemoveAll(s[1..], Fence);
      RemoveKeepsShortLead(s[1..]);
      assert t[1..] == RemoveAll(s[1..], Fence);
    }
  }

  /** Text with every fence removed contains no fence: the backticks left of
      any run number fewer than three, and the kept characters that separate
      runs are never backticks. */
  lemma {:induction false} RemoveFenceLeavesNone(s: string)
    ensures !Includes(RemoveAll(s, Fence), Fence)
    decreases |s|
  {
    if |s| >= |Fence| {
      if StartsWith(s, Fence) {
        RemoveFenceLeavesNone(s[3..]);
      } else {
        var t := RemoveAll(s, Fence);
        var rest := RemoveAll(s[1..], Fence);
        assert t == [s[0]] + rest;
        assert t[1..] == rest;
        RemoveFenceLeavesNone(s[1..]);
        LeadTicksFence(t);
        LeadTicksFence(s);
        if s[0] == '`' {
          assert LeadTicks(s) == 1 + LeadTicks(s[1..]);
          RemoveKeepsShortLead(s[1..]);
          assert LeadTicks(t) == 1 + LeadTicks(rest);
        }
      }
    }
  }
}
