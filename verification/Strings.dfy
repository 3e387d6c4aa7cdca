/** Splitting and joining of strings, and the segments of JSON pointers (section 4 of RFC 6901). */
module Strings {
  import opened Prelude

  /** The parts before and after the first occurrence of `c`. */
  function SplitOnce(s: string, c: char): Option<(string, string)> {
    if s == "" then None
    else if s[0] == c then Some(("", s[1..]))
    else
      match SplitOnce(s[1..], c)
      case None => None
      case Some(parts) => Some(([s[0]] + parts.0, parts.1))
  }

  function Split(s: string, c: char): (parts: seq<string>)
    ensures |parts| >= 1
  {
    if s == "" then [""]
    else
      var rest := Split(s[1..], c);
      if s[0] == c then [""] + rest else [[s[0]] + rest[0]] + rest[1..]
  }

  /** Every occurrence of the two characters `a b` becomes `c`, left to right. */
  function ReplacePair(s: string, a: char, b: char, c: char): string
    decreases |s|
  {
    if s == "" then ""
    else if |s| >= 2 && s[0] == a && s[1] == b then [c] + ReplacePair(s[2..], a, b, c)
    else [s[0]] + ReplacePair(s[1..], a, b, c)
  }

  /** The member name a raw segment stands for. */
  function SegmentName(raw: string): string {
    ReplacePair(ReplacePair(raw, '~', '1', '/'), '~', '0', '~')
  }

  /** All trailing copies of a suffix are removed. */
  function TrimEnd(s: string, suffix: string): string
    requires suffix != ""
    decreases |s|
  {
    if EndsWith(s, suffix) then TrimEnd(s[..|s| - |suffix|], suffix) else s
  }

  /** A part without the separator is the first part of the split. */
  lemma {:induction false} SplitFirst(part: string, behind: string, c: char)
    requires c !in part && (behind == "" || behind[0] == c)
    ensures Split(part + behind, c) == if behind == "" then [part] else [part] + Split(behind[1..], c)
  {
    if part == "" {
      assert part + behind == behind;
    } else {
      assert (part + behind)[1..] == part[1..] + behind && part == [part[0]] + part[1..];
      SplitFirst(part[1..], behind, c);
      var rest := Split(part[1..] + behind, c);
      assert rest[1..] == if behind == "" then [] else Split(behind[1..], c);
    }
  }

  /** Splitting once cuts at the first occurrence, if there is one. */
  lemma {:induction false} SplitsAtFirst(s: string, c: char)
    ensures SplitOnce(s, c).Some? <==> c in s
    ensures SplitOnce(s, c).Some? ==>
              var parts := SplitOnce(s, c).value; c !in parts.0 && s == parts.0 + [c] + parts.1
  {
    if s != "" && s[0] != c {
      SplitsAtFirst(s[1..], c);
      assert s == [s[0]] + s[1..];
    }
  }
}
