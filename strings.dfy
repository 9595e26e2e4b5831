/**
 * String helpers on one separator character: `str.join` and `str.partition` as the
 * proxy uses them, and `str.split` as the inverse of the join.
 */
module Strings {

  /** Position of the first occurrence of `c` in `s`. */
  function IndexOf(s: string, c: char): (i: nat)
    requires c in s
    ensures i < |s| && s[i] == c && c !in s[..i]
  {
    if s[0] == c then 0
    else
      assert s == [s[0]] + s[1..];
      var j := IndexOf(s[1..], c);
      assert s[..j + 1] == [s[0]] + s[1..][..j];
      j + 1
  }

  /** The first occurrence of `c` in `prefix + [c] + rest` is right after `prefix` when `prefix` lacks `c`. */
  lemma IndexOfAfterPrefix(prefix: string, c: char, rest: string)
    requires c !in prefix
    ensures c in prefix + [c] + rest
    ensures IndexOf(prefix + [c] + rest, c) == |prefix|
  {
    var s := prefix + [c] + rest;
    assert s[|prefix|] == c;
  }

  /** Python's `sep.join(parts)` for a one-character separator. */
  function Join(parts: seq<string>, sep: char): (s: string)
    ensures |parts| == 1 ==> s == parts[0]
    ensures |parts| > 1 ==> |s| > |parts[0]| && s[..|parts[0]|] == parts[0] && s[|parts[0]|] == sep
  {
    if |parts| == 0 then ""
    else if |parts| == 1 then parts[0]
    else parts[0] + [sep] + Join(parts[1..], sep)
  }

  /** A character that is neither the separator nor in any part is not in the joined text. */
  lemma {:induction false} JoinExcludes(parts: seq<string>, sep: char, c: char)
    requires c != sep
    requires forall k :: 0 <= k < |parts| ==> c !in parts[k]
    ensures c !in Join(parts, sep)
    decreases |parts|
  {
    if |parts| > 1 {
      JoinExcludes(parts[1..], sep, c);
    }
  }

  /** Python's `s.split(sep)` for a one-character separator: always at least one field. */
  function Split(s: string, sep: char): (fields: seq<string>)
    ensures |fields| > 0
    ensures forall k :: 0 <= k < |fields| ==> sep !in fields[k]
    decreases |s|
  {
    if sep in s then
      var i := IndexOf(s, sep);
      [s[..i]] + Split(s[i + 1..], sep)
    else [s]
  }

  /** Joining fields that do not contain the separator can be undone by splitting. */
  lemma {:induction false} SplitJoin(parts: seq<string>, sep: char)
    requires |parts| > 0
    requires forall k :: 0 <= k < |parts| ==> sep !in parts[k]
    ensures Split(Join(parts, sep), sep) == parts
  {
    if |parts| > 1 {
      var rest := Join(parts[1..], sep);
      var s := parts[0] + [sep] + rest;
      assert Join(parts, sep) == s;
      assert Split(s, sep) == [parts[0]] + Split(rest, sep) by {
        IndexOfAfterPrefix(parts[0], sep, rest);
        assert s[..|parts[0]|] == parts[0];
        assert s[|parts[0]| + 1..] == rest;
      }
      SplitJoin(parts[1..], sep);
      assert parts == [parts[0]] + parts[1..];
    }
  }

  /** Python's `s.partition(sep)`: text before the first `sep`, whether it was found, and the text after it. */
  function Partition(s: string, sep: char): (r: (string, bool, string))
    ensures r.1 <==> sep in s
    ensures r.1 ==> s == r.0 + [sep] + r.2 && sep !in r.0
    ensures !r.1 ==> r.0 == s && r.2 == ""
  {
    if sep in s then
      var i := IndexOf(s, sep);
      assert s == s[..i] + [sep] + s[i + 1..];
      (s[..i], true, s[i + 1..])
    else (s, false, "")
  }
}
