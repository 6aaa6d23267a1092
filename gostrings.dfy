/**
  The few string and path helpers of Go's standard library that the scanner
  relies on: strings.Join, strings.HasPrefix, strings.TrimPrefix and
  filepath.Join (the latter as plain concatenation of one segment).
 */
module GoStrings {

  /** Sum of the lengths of all parts. */
  function TotalLength(parts: seq<string>): nat
  {
    if parts == [] then 0 else TotalLength(parts[..|parts| - 1]) + |parts[|parts| - 1]|
  }

  /** strings.Join: the parts in order with `sep` between each neighbouring pair. */
  function Join(parts: seq<string>, sep: string): (r: string)
    ensures |parts| == 0 ==> r == ""
    ensures |parts| == 1 ==> r == parts[0]
    ensures |parts| > 0 ==> HasPrefix(r, parts[0])
    ensures |parts| > 0 ==> |r| == TotalLength(parts) + (|parts| - 1) * |sep|
  {
    if |parts| == 0 then ""
    else if |parts| == 1 then parts[0]
    else
      var front := Join(parts[..|parts| - 1], sep);
      assert (front + sep + parts[|parts| - 1])[..|parts[0]|] == front[..|parts[0]|];
      front + sep + parts[|parts| - 1]
  }

  /**
    Join read from the front, as strings.Join builds it: the first part, the
    separator, then the join of the remaining parts.
   */
  lemma {:induction false} JoinCons(parts: seq<string>, sep: string)
    requires |parts| >= 2
    ensures Join(parts, sep) == parts[0] + sep + Join(parts[1..], sep)
  {
    var front := parts[..|parts| - 1];
    var last := parts[|parts| - 1];
    if |parts| > 2 {
      JoinCons(front, sep);
      assert parts[1..][..|parts[1..]| - 1] == front[1..];
      assert Join(parts[1..], sep) == Join(front[1..], sep) + sep + last;
    } else {
      assert parts[1..] == [last];
    }
  }

  /** strings.HasPrefix. */
  predicate HasPrefix(s: string, prefix: string)
  {
    |prefix| <= |s| && s[..|prefix|] == prefix
  }

  /** Whether `s` ends with `suffix`; not called by the scanner, used to state properties of its output. */
  predicate HasSuffix(s: string, suffix: string)
  {
    |suffix| <= |s| && s[|s| - |suffix|..] == suffix
  }

  /** strings.TrimPrefix: `s` without a leading `prefix`, or `s` itself when it has none. */
  function TrimPrefix(s: string, prefix: string): (r: string)
    ensures HasPrefix(s, prefix) ==> prefix + r == s
    ensures !HasPrefix(s, prefix) ==> r == s
  {
    if HasPrefix(s, prefix) then s[|prefix|..] else s
  }

  const PathSeparator: char := '/'

  /** filepath.Join of a directory and one entry name, without normalisation. */
  function JoinPath(dir: string, name: string): (r: string)
    ensures |r| > |dir| && HasPrefix(r, dir)
    ensures r[|dir|] == PathSeparator && r[|dir| + 1..] == name
  {
    dir + [PathSeparator] + name
  }
}
