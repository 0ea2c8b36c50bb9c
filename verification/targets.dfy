/**
  Target expansion: every host is combined with every port, once with the
  `http` scheme and once with `https`, hosts in the outer loop, ports in the
  inner loop, `http` first.
 */
module Targets {
  import opened Common
  import opened Text
  import opened Decimal

  /** The two schemes every (host, port) pair is tried with. */
  predicate IsScheme(scheme: string)
  {
    scheme == "http" || scheme == "https"
  }

  /** The interpolated string `$"{scheme}://{domain}:{port}"`. */
  function Target(scheme: string, domain: string, port: int): (target: string)
  {
    scheme + "://" + domain + ":" + FormatInt(port)
  }

  /** The targets of one host: for each port, `http` then `https`. */
  function Row(domain: string, ports: seq<Int32>): (row: seq<string>)
    ensures |row| == 2 * |ports|
  {
    if |ports| == 0 then []
    else [Target("http", domain, ports[0]), Target("https", domain, ports[0])] + Row(domain, ports[1..])
  }

  /** The `targets` list built from `domains` and `options.Ports`: the rows of the hosts, in order. */
  function Expand(domains: seq<string>, ports: seq<Int32>): (targets: seq<string>)
  {
    if |domains| == 0 then []
    else Row(domains[0], ports) + Expand(domains[1..], ports)
  }

  /** The row of every host, host by host. */
  function Rows(domains: seq<string>, ports: seq<Int32>): (rows: seq<seq<string>>)
    ensures |rows| == |domains|
    ensures forall i :: 0 <= i < |rows| ==> rows[i] == Row(domains[i], ports)
  {
    seq(|domains|, i requires 0 <= i < |domains| => Row(domains[i], ports))
  }

  /** The expansion is the rows of the hosts laid end to end. */
  lemma {:induction false} ExpandIsFlatten(domains: seq<string>, ports: seq<Int32>)
    ensures Expand(domains, ports) == Flatten(Rows(domains, ports))
  {
    if |domains| > 0 {
      var tail := domains[1..];
      ExpandIsFlatten(tail, ports);
      var rows := Rows(domains, ports);
      assert rows[1..] == Rows(tail, ports);
    }
  }

  /** Position arithmetic of a row-major layout with two cells per (host, port) pair. */
  lemma RowMajor(i: nat, n: nat, j: nat)
    ensures 2 * (i * n + j) == i * (2 * n) + 2 * j
  {
  }

  /** The expansion holds two targets for every (host, port) pair. */
  lemma ExpandCount(domains: seq<string>, ports: seq<Int32>)
    ensures |Expand(domains, ports)| == 2 * (|domains| * |ports|)
  {
    ExpandIsFlatten(domains, ports);
    FlattenLength(Rows(domains, ports), 2 * |ports|);
    RowMajor(|domains|, |ports|, 0);
  }

  /** There is a target as soon as there is a host and a port. */
  lemma ExpandNonEmpty(domains: seq<string>, ports: seq<Int32>)
    requires |domains| > 0 && |ports| > 0
    ensures |Expand(domains, ports)| > 0
  {
    assert Expand(domains, ports) == Row(domains[0], ports) + Expand(domains[1..], ports);
  }

  /** Position `2 * j` of a row is the `http` target of port `j`, the next one its `https` target. */
  lemma {:induction false} RowAt(domain: string, ports: seq<Int32>, j: nat)
    requires j < |ports|
    ensures Row(domain, ports)[2 * j] == Target("http", domain, ports[j])
    ensures Row(domain, ports)[2 * j + 1] == Target("https", domain, ports[j])
  {
    var tail := ports[1..];
    var pair := [Target("http", domain, ports[0]), Target("https", domain, ports[0])];
    assert Row(domain, ports) == pair + Row(domain, tail);
    if j > 0 {
      RowAt(domain, tail, j - 1);
      assert tail[j - 1] == ports[j];
    }
  }

  /**
    The order of the expansion: for host `i` and port `j`, the `http` target
    sits at position `2 * (i * |ports| + j)` and the `https` target right
    after it.
   */
  lemma ExpandAt(domains: seq<string>, ports: seq<Int32>, i: nat, j: nat)
    requires i < |domains| && j < |ports|
    ensures 2 * (i * |ports| + j) + 1 < |Expand(domains, ports)|
    ensures Expand(domains, ports)[2 * (i * |ports| + j)] == Target("http", domains[i], ports[j])
    ensures Expand(domains, ports)[2 * (i * |ports| + j) + 1] == Target("https", domains[i], ports[j])
  {
    var n := 2 * |ports|;
    var rows := Rows(domains, ports);
    var pos := 2 * (i * |ports| + j);
    RowMajor(i, |ports|, j);
    ExpandIsFlatten(domains, ports);
    FlattenAt(rows, n, i, 2 * j);
    FlattenAt(rows, n, i, 2 * j + 1);
    RowAt(domains[i], ports, j);
  }

  /** A target splits, after its schema is removed, into its host and its port text. */
  lemma TargetParts(scheme: string, domain: string, port: int)
    requires IsScheme(scheme) && ':' !in domain
    ensures Split(RemoveSchema(Target(scheme, domain, port)), ':') == [domain, FormatInt(port)]
  {
    var text := FormatInt(port);
    assert ':' !in text;
    assert Target(scheme, domain, port) == scheme + "://" + (domain + ":" + text);
    RemoveSchemaOfTarget(scheme, domain + ":" + text);
    assert Join([domain, text], ':') == domain + ":" + text;
    SplitJoin([domain, text], ':');
  }

  /**
    The port text holds no colon, so the last colon of a target separates
    `scheme://host` from the port text, whatever the host holds.
   */
  lemma TargetLayout(scheme: string, domain: string, port: int)
    ensures var t, base := Target(scheme, domain, port), scheme + "://" + domain;
      && ':' in t
      && LastIndexOf(t, ':') == |base|
      && t[..|base|] == base
      && t[|base| + 1..] == FormatInt(port)
  {
    var base, text := scheme + "://" + domain, FormatInt(port);
    assert ':' !in text;
    assert Target(scheme, domain, port) == base + [':'] + text;
    LastIndexOfBeforeSuffix(base, ':', text);
  }

  /** `scheme://host` determines its scheme and its host. */
  lemma BaseInjective(s1: string, d1: string, s2: string, d2: string)
    requires IsScheme(s1) && IsScheme(s2)
    requires s1 + "://" + d1 == s2 + "://" + d2
    ensures s1 == s2 && d1 == d2
  {
    var base := s1 + "://" + d1;
    SchemeOfBase(s1, d1);
    SchemeOfBase(s2, d2);
    assert d1 == base[|s1| + 3..];
    assert d2 == (s2 + "://" + d2)[|s2| + 3..];
  }

  /** Position 4 of `scheme://host` tells the schemes apart. */
  lemma SchemeOfBase(scheme: string, domain: string)
    requires IsScheme(scheme)
    ensures |scheme + "://" + domain| > 4
    ensures (scheme + "://" + domain)[4] == (if scheme == "http" then ':' else 's')
  {
  }

  /**
    Different (scheme, host, port) triples give different targets, for any
    hosts, including hosts that hold colons.
   */
  lemma TargetInjective(s1: string, d1: string, p1: Int32, s2: string, d2: string, p2: Int32)
    requires IsScheme(s1) && IsScheme(s2)
    requires Target(s1, d1, p1) == Target(s2, d2, p2)
    ensures s1 == s2 && d1 == d2 && p1 == p2
  {
    TargetLayout(s1, d1, p1);
    TargetLayout(s2, d2, p2);
    BaseInjective(s1, d1, s2, d2);
    ParseFormatRoundTrip(p1);
    ParseFormatRoundTrip(p2);
  }

  /** The targets of one host are exactly its two schemes on each of the ports. */
  lemma {:induction false} RowMembers(domain: string, ports: seq<Int32>, t: string)
    ensures t in Row(domain, ports) <==>
      exists j :: 0 <= j < |ports| && (t == Target("http", domain, ports[j]) || t == Target("https", domain, ports[j]))
  {
    if |ports| > 0 {
      RowMembers(domain, ports[1..], t);
      if exists j :: 0 <= j < |ports| && (t == Target("http", domain, ports[j]) || t == Target("https", domain, ports[j])) {
        var j :| 0 <= j < |ports| && (t == Target("http", domain, ports[j]) || t == Target("https", domain, ports[j]));
        if j > 0 {
          assert ports[1..][j - 1] == ports[j];
        }
      }
      if exists j :: 0 <= j < |ports| - 1 && (t == Target("http", domain, ports[1..][j]) || t == Target("https", domain, ports[1..][j])) {
        var j :| 0 <= j < |ports| - 1 && (t == Target("http", domain, ports[1..][j]) || t == Target("https", domain, ports[1..][j]));
        assert ports[1..][j] == ports[j + 1];
      }
    }
  }

  /** A target of host `d` lies in the row of `d` exactly when its port is one of the ports. */
  lemma TargetInRow(scheme: string, d: string, p: Int32, ports: seq<Int32>)
    requires IsScheme(scheme)
    ensures Target(scheme, d, p) in Row(d, ports) <==> p in ports
  {
    var t := Target(scheme, d, p);
    RowMembers(d, ports, t);
    if t in Row(d, ports) {
      var j :| 0 <= j < |ports| && (t == Target("http", d, ports[j]) || t == Target("https", d, ports[j]));
      if t == Target("http", d, ports[j]) {
        TargetInjective(scheme, d, p, "http", d, ports[j]);
      } else {
        TargetInjective(scheme, d, p, "https", d, ports[j]);
      }
    }
    if p in ports {
      var j :| 0 <= j < |ports| && ports[j] == p;
      assert scheme == "http" ==> t == Target("http", d, ports[j]);
    }
  }

  /** The rows of two different hosts share no target. */
  lemma RowsDisjoint(d1: string, d2: string, ports: seq<Int32>, t: string)
    requires d1 != d2
    ensures !(t in Row(d1, ports) && t in Row(d2, ports))
  {
    if t in Row(d1, ports) && t in Row(d2, ports) {
      RowMembers(d1, ports, t);
      RowMembers(d2, ports, t);
      var j1 :| 0 <= j1 < |ports| && (t == Target("http", d1, ports[j1]) || t == Target("https", d1, ports[j1]));
      var j2 :| 0 <= j2 < |ports| && (t == Target("http", d2, ports[j2]) || t == Target("https", d2, ports[j2]));
      var s1 := if t == Target("http", d1, ports[j1]) then "http" else "https";
      var s2 := if t == Target("http", d2, ports[j2]) then "http" else "https";
      TargetInjective(s1, d1, ports[j1], s2, d2, ports[j2]);
    }
  }

  /** The `http` and `https` targets of one (host, port) pair differ. */
  lemma SchemesDiffer(d: string, p: int)
    ensures Target("http", d, p) != Target("https", d, p)
  {
  }

  /** Adding a port in front keeps a row duplicate-free exactly when the port is new. */
  lemma RowConsNoDuplicates(d: string, ports: seq<Int32>)
    requires |ports| > 0
    ensures NoDuplicates(Row(d, ports)) <==> NoDuplicates(Row(d, ports[1..])) && ports[0] !in ports[1..]
  {
    var p := ports[0];
    SchemesDiffer(d, p);
    PairConsNoDuplicates(Target("http", d, p), Target("https", d, p), Row(d, ports[1..]));
    TargetInRow("http", d, p, ports[1..]);
    TargetInRow("https", d, p, ports[1..]);
  }

  /** A row is duplicate-free exactly when the ports are. */
  lemma {:induction false} RowNoDuplicates(d: string, ports: seq<Int32>)
    ensures NoDuplicates(Row(d, ports)) <==> NoDuplicates(ports)
  {
    if |ports| > 0 {
      var p := ports[0];
      var tail := ports[1..];
      assert ports == [p] + tail;
      RowNoDuplicates(d, tail);
      RowConsNoDuplicates(d, ports);
      NoDuplicatesConcat([p], tail);
      assert (forall i :: 0 <= i < 1 ==> [p][i] !in tail) <==> p !in tail;
    }
  }

  /** The expansion holds exactly the targets of the rows of its hosts. */
  lemma {:induction false} ExpandMembers(domains: seq<string>, ports: seq<Int32>, t: string)
    ensures t in Expand(domains, ports) <==> exists i :: 0 <= i < |domains| && t in Row(domains[i], ports)
  {
    if |domains| > 0 {
      var tail := domains[1..];
      ExpandMembers(tail, ports, t);
      if exists i :: 0 <= i < |domains| && t in Row(domains[i], ports) {
        var i :| 0 <= i < |domains| && t in Row(domains[i], ports);
        if i > 0 {
          assert tail[i - 1] == domains[i];
        }
      }
      if exists i :: 0 <= i < |tail| && t in Row(tail[i], ports) {
        var i :| 0 <= i < |tail| && t in Row(tail[i], ports);
        assert domains[i + 1] == tail[i];
      }
    }
  }

  /**
    Ports are not de-duplicated by the expansion: the
    targets are pairwise distinct exactly when there is no host, no port, or
    both the hosts and the ports are pairwise distinct.
   */
  lemma {:induction false} ExpandNoDuplicates(domains: seq<string>, ports: seq<Int32>)
    ensures NoDuplicates(Expand(domains, ports)) <==>
      |domains| == 0 || |ports| == 0 || (NoDuplicates(domains) && NoDuplicates(ports))
  {
    ExpandCount(domains, ports);
    if |domains| > 0 && |ports| > 0 {
      var d := domains[0];
      var tail := domains[1..];
      var row := Row(d, ports);
      var rest := Expand(tail, ports);
      ExpandNoDuplicates(tail, ports);
      RowNoDuplicates(d, ports);
      NoDuplicatesConcat(row, rest);
      NoDuplicatesConcat([d], tail);
      assert domains == [d] + tail;
      var disjoint := forall i :: 0 <= i < |row| ==> row[i] !in rest;
      assert disjoint <==> d !in tail by {
        if d in tail {
          var k :| 0 <= k < |tail| && tail[k] == d;
          ExpandMembers(tail, ports, row[0]);
        } else {
          forall i | 0 <= i < |row| ensures row[i] !in rest {
            ExpandMembers(tail, ports, row[i]);
            if row[i] in rest {
              var k :| 0 <= k < |tail| && row[i] in Row(tail[k], ports);
              RowsDisjoint(d, tail[k], ports, row[i]);
            }
          }
        }
      }
    }
  }
}
