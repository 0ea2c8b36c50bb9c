/**
  Wordlist sanitization: each non-empty line loses its schema and trailing
  slashes, is kept only when `Uri.CheckHostName` recognises it, and the kept
  hosts are de-duplicated in first-occurrence order (`Distinct().ToList()`).
 */
module Wordlist {
  import opened Common
  import opened Text
  import Config

  /** The answers of `Uri.CheckHostName`. */
  datatype HostNameKind = Unknown | Basic | Dns | IPv4 | IPv6

  /**
    `Uri.CheckHostName(name)`. The framework answers `Unknown` for the empty
    string; every other answer comes from `classify`, which stands for the
    framework's host-name grammar.
   */
  function CheckHostName(name: string, classify: string -> HostNameKind): (k: HostNameKind)
    ensures name == "" ==> k == Unknown
    ensures name != "" ==> k == classify(name)
  {
    if name == "" then Unknown else classify(name)
  }

  /** A line after `RemoveSchema()` and the trailing-slash loop (its test read exactly, see `Text.EndsWith`). */
  function CleanLine(line: string): (host: string)
    ensures host <= RemoveSchema(line) && !EndsWith(host, '/')
    ensures forall i :: |host| <= i < |RemoveSchema(line)| ==> RemoveSchema(line)[i] == '/'
  {
    TrimTrailingSlashes(RemoveSchema(line))
  }

  /** A host that sanitization may keep. */
  predicate IsKeptHost(host: string, classify: string -> HostNameKind)
  {
    host != "" && !EndsWith(host, '/') && CheckHostName(host, classify) != Unknown
  }

  /** The host one line contributes, if any: empty lines and unknown hosts are skipped. */
  function Candidate(line: string, classify: string -> HostNameKind): (h: Option<string>)
    ensures h.Some? ==> IsKeptHost(h.value, classify)
    ensures h.Some? <==> line != "" && CheckHostName(CleanLine(line), classify) != Unknown
    ensures h.Some? ==>
      var rest := RemoveSchema(line);
      && h.value <= rest
      && (forall i :: |h.value| <= i < |rest| ==> rest[i] == '/')
      && rest == line[|line| - |rest|..]
  {
    if line == "" then None
    else
      var host := CleanLine(line);
      if CheckHostName(host, classify) == Unknown then None else Some(host)
  }

  /** The `domains` list before de-duplication, in line order. */
  function Collect(lines: seq<string>, classify: string -> HostNameKind): (hosts: seq<string>)
  {
    FilterMap(lines, line => Candidate(line, classify))
  }

  /** `Distinct()`: every element once, and nothing that was not there. */
  function Distinct<T(==)>(xs: seq<T>): (r: seq<T>)
    ensures NoDuplicates(r)
    ensures forall i :: 0 <= i < |r| ==> r[i] in xs
    ensures forall i :: 0 <= i < |xs| ==> xs[i] in r
  {
    if |xs| == 0 then []
    else
      var init := xs[..|xs| - 1];
      var last := xs[|xs| - 1];
      var prefix := Distinct(init);
      assert forall i :: 0 <= i < |init| ==> xs[i] == init[i];
      if last in prefix then prefix else prefix + [last]
  }

  /** Within a prefix, first occurrences are the same as in the whole sequence. */
  lemma FirstIndexOfPrefix<T>(xs: seq<T>, init: seq<T>, x: T)
    requires init <= xs && x in init
    ensures FirstIndex(xs, x) == FirstIndex(init, x)
  {
  }

  /**
    `Distinct()` keeps the order of first occurrences: of two kept elements,
    the earlier one first occurs earlier in the input.
   */
  lemma {:induction false} DistinctKeepsFirstOccurrenceOrder<T>(xs: seq<T>)
    ensures forall i, j :: 0 <= i < j < |Distinct(xs)| ==>
      FirstIndex(xs, Distinct(xs)[i]) < FirstIndex(xs, Distinct(xs)[j])
  {
    if |xs| > 0 {
      var init := xs[..|xs| - 1];
      var last := xs[|xs| - 1];
      var prefix := Distinct(init);
      var r := Distinct(xs);
      DistinctKeepsFirstOccurrenceOrder(init);
      assert forall i :: 0 <= i < |prefix| ==> prefix[i] in init;
      forall k | 0 <= k < |prefix|
        ensures FirstIndex(xs, prefix[k]) == FirstIndex(init, prefix[k])
      {
        FirstIndexOfPrefix(xs, init, prefix[k]);
      }
      if last !in prefix {
        assert last !in init;
        assert FirstIndex(xs, last) == |xs| - 1;
        assert r == prefix + [last];
        forall i, j | 0 <= i < j < |r| ensures FirstIndex(xs, r[i]) < FirstIndex(xs, r[j]) {
          assert r[i] == prefix[i];
          if j < |prefix| {
            assert r[j] == prefix[j];
          } else {
            assert FirstIndex(init, prefix[i]) < |init|;
          }
        }
      } else {
        assert r == prefix;
      }
    }
  }

  /**
    The sanitized host list: non-empty, duplicate-free, and made of hosts that
    sanitization may keep; when no line contributes a host the wordlist is
    rejected.
   */
  function Sanitize(lines: seq<string>, classify: string -> HostNameKind): (r: Result<seq<string>, Config.ConfigError>)
    ensures r.Err? <==> |Collect(lines, classify)| == 0
    ensures r.Err? ==> r.error == Config.UselessWordList
    ensures r.Ok? ==> |r.value| > 0 && NoDuplicates(r.value)
  {
    var domains := Distinct(Collect(lines, classify));
    if |domains| == 0 then Err(Config.UselessWordList) else Ok(domains)
  }

  /** Some line of `lines` contributes `h`. */
  predicate Contributed(lines: seq<string>, classify: string -> HostNameKind, h: string)
  {
    exists i :: 0 <= i < |lines| && Candidate(lines[i], classify) == Some(h)
  }

  /** The collected hosts are exactly the contributed ones, and each may be kept. */
  lemma CollectedIffContributed(lines: seq<string>, classify: string -> HostNameKind, h: string)
    ensures h in Collect(lines, classify) <==> Contributed(lines, classify, h)
    ensures h in Collect(lines, classify) ==> IsKeptHost(h, classify)
  {
    FilterMapMembers(lines, line => Candidate(line, classify), h);
    if h in Collect(lines, classify) {
      var i :| 0 <= i < |lines| && Candidate(lines[i], classify) == Some(h);
    }
  }

  /**
    The kept hosts are exactly the hosts some line contributes, each of them
    a host sanitization may keep, in the order in which they first appear;
    the wordlist is rejected exactly when no line contributes a host.
   */
  lemma SanitizeKeepsExactlyTheCandidates(lines: seq<string>, classify: string -> HostNameKind)
    ensures Sanitize(lines, classify).Err? <==>
      forall i :: 0 <= i < |lines| ==> Candidate(lines[i], classify).None?
    ensures Sanitize(lines, classify).Ok? ==>
      forall h :: h in Sanitize(lines, classify).value <==> Contributed(lines, classify, h)
    ensures Sanitize(lines, classify).Ok? ==>
      forall h :: h in Sanitize(lines, classify).value ==> IsKeptHost(h, classify)
    ensures Sanitize(lines, classify).Ok? ==>
      var hosts := Sanitize(lines, classify).value;
      forall i, j :: 0 <= i < j < |hosts| ==>
        FirstIndex(Collect(lines, classify), hosts[i]) < FirstIndex(Collect(lines, classify), hosts[j])
  {
    var collected := Collect(lines, classify);
    var d := Distinct(collected);
    DistinctKeepsFirstOccurrenceOrder(collected);
    forall h ensures h in d <==> Contributed(lines, classify, h)
      ensures h in d ==> IsKeptHost(h, classify)
    {
      CollectedIffContributed(lines, classify, h);
      if h in collected {
        var k :| 0 <= k < |collected| && collected[k] == h;
      }
    }
    if |collected| == 0 {
      forall i | 0 <= i < |lines| ensures Candidate(lines[i], classify).None? {
        if Candidate(lines[i], classify).Some? {
          CollectedIffContributed(lines, classify, Candidate(lines[i], classify).value);
        }
      }
    } else {
      var i :| 0 <= i < |lines| && Candidate(lines[i], classify) == Some(collected[0]) by {
        CollectedIffContributed(lines, classify, collected[0]);
      }
    }
  }
}
