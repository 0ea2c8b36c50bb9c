/**
  String helpers with the meaning of the .NET string operations used by the
  program: character counting, `IndexOf`/`LastIndexOf`, `Split` on one
  separator character, trailing-character removal, and the schema stripping
  of the `RemoveSchema` extension method.
 */
module Text {

  /** Number of occurrences of `c` in `s` (`s.Count(x => x == c)`). */
  function Occurrences(s: string, c: char): (n: nat)
  {
    multiset(s)[c]
  }

  /**
    `s` ends in the character `c`, compared exactly. The program's
    `EndsWith("/")` compares under the current culture instead, which also
    skips trailing characters the culture ignores.
   */
  predicate EndsWith(s: string, c: char)
  {
    |s| > 0 && s[|s| - 1] == c
  }

  /** `s.IndexOf(c)`: the first position holding `c`. */
  function IndexOf(s: string, c: char): (i: nat)
    requires c in s
    ensures i < |s| && s[i] == c
    ensures c !in s[..i]
  {
    if s[0] == c then 0
    else
      var k := IndexOf(s[1..], c);
      assert s[..k + 1] == [s[0]] + s[1..][..k];
      k + 1
  }

  /** `s.LastIndexOf(c)`: the last position holding `c`. */
  function LastIndexOf(s: string, c: char): (i: nat)
    requires c in s
    ensures i < |s| && s[i] == c
    ensures c !in s[i + 1..]
  {
    if s[|s| - 1] == c then |s| - 1
    else
      var k := LastIndexOf(s[..|s| - 1], c);
      assert s[k + 1..] == s[..|s| - 1][k + 1..] + [s[|s| - 1]];
      k
  }

  /** The first occurrence of `c` in `a + [c] + b` is right after `a` when `a` lacks `c`. */
  lemma IndexOfAfterPrefix(a: string, c: char, b: string)
    requires c !in a
    ensures c in a + [c] + b
    ensures IndexOf(a + [c] + b, c) == |a|
  {
    var s := a + [c] + b;
    assert s[|a|] == c;
  }

  /** The last occurrence of `c` in `a + [c] + b` is right after `a` when `b` lacks `c`. */
  lemma LastIndexOfBeforeSuffix(a: string, c: char, b: string)
    requires c !in b
    ensures c in a + [c] + b
    ensures LastIndexOf(a + [c] + b, c) == |a|
  {
    var s := a + [c] + b;
    assert s[|a|] == c;
    assert forall j :: |a| < j < |s| ==> s[j] == b[j - |a| - 1];
  }

  /**
    `s.Split(sep)` with the default options: every maximal separator-free
    piece, empty pieces included, so that there is always one piece more than
    there are separators.
   */
  function Split(s: string, sep: char): (parts: seq<string>)
    ensures |parts| == Occurrences(s, sep) + 1
    ensures forall i :: 0 <= i < |parts| ==> sep !in parts[i]
    decreases |s|
  {
    if sep !in s then
      assert multiset(s)[sep] == 0;
      [s]
    else
      var i := IndexOf(s, sep);
      assert s == s[..i] + [sep] + s[i + 1..];
      assert multiset(s) == multiset(s[..i]) + multiset{sep} + multiset(s[i + 1..]) by {
        assert s == s[..i] + ([sep] + s[i + 1..]);
      }
      assert multiset(s[..i])[sep] == 0;
      [s[..i]] + Split(s[i + 1..], sep)
  }

  /** `string.Join(sep, parts)`: the inverse of `Split`. */
  function Join(parts: seq<string>, sep: char): (joined: string)
    requires |parts| > 0
  {
    if |parts| == 1 then parts[0] else parts[0] + [sep] + Join(parts[1..], sep)
  }

  /** Joining the pieces of a split restores the original string. */
  lemma {:induction false} JoinSplit(s: string, sep: char)
    ensures Join(Split(s, sep), sep) == s
    decreases |s|
  {
    if sep in s {
      var i := IndexOf(s, sep);
      JoinSplit(s[i + 1..], sep);
      assert s == s[..i] + [sep] + s[i + 1..];
    }
  }

  /** Splitting a join of separator-free pieces gives the pieces back. */
  lemma {:induction false} SplitJoin(parts: seq<string>, sep: char)
    requires |parts| > 0
    requires forall i :: 0 <= i < |parts| ==> sep !in parts[i]
    ensures Split(Join(parts, sep), sep) == parts
  {
    if |parts| > 1 {
      var tail := parts[1..];
      assert forall i :: 0 <= i < |tail| ==> tail[i] == parts[i + 1];
      SplitJoin(tail, sep);
      assert Join(parts, sep) == parts[0] + [sep] + Join(tail, sep);
      SplitAt(parts[0], sep, Join(tail, sep));
      assert parts == [parts[0]] + tail;
    }
  }

  /** A string with a first separator after the separator-free `a` splits into `a` and the pieces of the rest. */
  lemma SplitAt(a: string, sep: char, b: string)
    requires sep !in a
    ensures Split(a + [sep] + b, sep) == [a] + Split(b, sep)
  {
    var s := a + [sep] + b;
    IndexOfAfterPrefix(a, sep, b);
    assert s[..|a|] == a;
    assert s[|a| + 1..] == b;
  }

  /**
    The extension method `RemoveSchema` of HttpDoom.Utilities, which is not
    part of this model. Its assumed behaviour: a leading `http://` or
    `https://` is removed, anything else is left as it is.
   */
  function RemoveSchema(s: string): (r: string)
    ensures |r| <= |s| && r == s[|s| - |r|..]
    ensures !("http://" <= s) && !("https://" <= s) ==> r == s
    ensures "http://" <= s ==> r == s[7..]
    ensures "https://" <= s ==> r == s[8..]
  {
    if "http://" <= s then
      assert s[4] == "http://"[4] != "https://"[4];
      s[7..]
    else if "https://" <= s then s[8..]
    else s
  }

  /** Removing the schema from `scheme://rest` leaves `rest`, for both schemes. */
  lemma RemoveSchemaOfTarget(scheme: string, rest: string)
    requires scheme == "http" || scheme == "https"
    ensures RemoveSchema(scheme + "://" + rest) == rest
  {
  }

  /**
    The loop that removes trailing slashes from a wordlist line, with its
    test read as an exact last-character comparison: the longest prefix of
    `s` that does not end in `/` and is followed only by slashes.
   */
  function TrimTrailingSlashes(s: string): (r: string)
    ensures r <= s
    ensures !EndsWith(r, '/')
    ensures forall i :: |r| <= i < |s| ==> s[i] == '/'
  {
    if EndsWith(s, '/') then TrimTrailingSlashes(s[..|s| - 1]) else s
  }
}
