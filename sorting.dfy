/** IssueSeveritySorter, and the stable sort that `Stream.sorted` performs
    with it. */
module Sorting {
  import opened Issues

  /** IssueSeveritySorter.compare: the sign of the difference of the two
      severities' ordinals. */
  function Compare(o1: Issue, o2: Issue): (r: int)
    ensures r == -1 || r == 0 || r == 1
    ensures r == 0 <==> o1.severity == o2.severity
    ensures r < 0 <==> Ordinal(o1.severity) < Ordinal(o2.severity)
    ensures r > 0 <==> Ordinal(o1.severity) > Ordinal(o2.severity)
  {
    OrdinalInjective(o1.severity, o2.severity);
    var difference := Ordinal(o1.severity) - Ordinal(o2.severity);
    if difference < 0 then -1
    else if difference > 0 then 1
    else 0
  }

  lemma CompareAntisymmetric(a: Issue, b: Issue)
    ensures Compare(a, b) == -Compare(b, a)
  {
  }

  lemma CompareTransitive(a: Issue, b: Issue, c: Issue)
    requires Compare(a, b) <= 0 && Compare(b, c) <= 0
    ensures Compare(a, c) <= 0
  {
  }

  /** Only the severities matter: two pairs with the same severities compare alike. */
  lemma CompareOnlySeverity(a: Issue, b: Issue, a': Issue, b': Issue)
    requires a.severity == a'.severity && b.severity == b'.severity
    ensures Compare(a, b) == Compare(a', b')
  {
  }

  lemma CompareExamples(info: Issue, major: Issue, major': Issue, blocker: Issue)
    requires info.severity == Info && major.severity == Major
    requires major'.severity == Major && blocker.severity == Blocker
    ensures Compare(major, major') == 0
    ensures Compare(info, major) == -1
    ensures Compare(blocker, major) == 1
  {
  }

  // ---------------------------------------------------------------------
  // Sorting mapped issues with the comparator
  // ---------------------------------------------------------------------

  /** Non-decreasing under Compare. */
  predicate SortedBySeverity(s: seq<MappedIssue>) {
    forall i, j :: 0 <= i < j < |s| ==> Compare(s[i].issue, s[j].issue) <= 0
  }

  /** The issues of `s` that have severity `v`, in the order of `s`. */
  function OfSeverity(s: seq<MappedIssue>, v: Severity): seq<MappedIssue> {
    if s == [] then []
    else (if s[0].issue.severity == v then [s[0]] else []) + OfSeverity(s[1..], v)
  }

  lemma {:induction false} OfSeverityAppend(a: seq<MappedIssue>, b: seq<MappedIssue>, v: Severity)
    ensures OfSeverity(a + b, v) == OfSeverity(a, v) + OfSeverity(b, v)
  {
    if a == [] {
      assert a + b == b;
    } else {
      assert (a + b)[1..] == a[1..] + b;
      OfSeverityAppend(a[1..], b, v);
    }
  }

  /** Places `x` in front of the first element at least as severe. */
  function Insert(x: MappedIssue, s: seq<MappedIssue>): (r: seq<MappedIssue>)
    ensures multiset(r) == multiset(s) + multiset{x}
    ensures |r| == |s| + 1
  {
    if s == [] || Compare(x.issue, s[0].issue) <= 0 then [x] + s
    else
      assert s == [s[0]] + s[1..];
      [s[0]] + Insert(x, s[1..])
  }

  lemma {:induction false} InsertSorted(x: MappedIssue, s: seq<MappedIssue>)
    requires SortedBySeverity(s)
    ensures SortedBySeverity(Insert(x, s))
  {
    if s != [] && Compare(x.issue, s[0].issue) > 0 {
      InsertSorted(x, s[1..]);
      var r := Insert(x, s);
      assert r == [s[0]] + Insert(x, s[1..]);
      forall i, j | 0 <= i < j < |r| ensures Compare(r[i].issue, r[j].issue) <= 0 {
        if i == 0 {
          assert r[j] in multiset(Insert(x, s[1..]));
          assert r[j] == x || r[j] in s[1..];
        }
      }
    }
  }

  /** Inserting never overtakes an element of the same severity that
      follows: `x` lands in front of all of them. */
  lemma {:induction false} InsertKeepsOrder(x: MappedIssue, s: seq<MappedIssue>, v: Severity)
    ensures OfSeverity(Insert(x, s), v) == OfSeverity([x] + s, v)
  {
    if s == [] || Compare(x.issue, s[0].issue) <= 0 {
    } else {
      InsertKeepsOrder(x, s[1..], v);
      assert Insert(x, s)[1..] == Insert(x, s[1..]);
      assert ([x] + s)[1..] == s;
      assert ([x] + s[1..])[1..] == s[1..];
      assert s[0].issue.severity != x.issue.severity;
    }
  }

  /** Stream.sorted with IssueSeveritySorter: a stable sort,
      so the result is ordered by severity, is a permutation of the input,
      and keeps issues of equal severity in their input order. */
  function SortBySeverity(s: seq<MappedIssue>): (r: seq<MappedIssue>)
    ensures multiset(r) == multiset(s)
    ensures SortedBySeverity(r)
    ensures forall v :: OfSeverity(r, v) == OfSeverity(s, v)
  {
    if s == [] then []
    else
      var rest := SortBySeverity(s[1..]);
      InsertSorted(s[0], rest);
      assert s == [s[0]] + s[1..];
      forall v ensures OfSeverity(Insert(s[0], rest), v) == OfSeverity(s, v) {
        InsertKeepsOrder(s[0], rest, v);
        OfSeverityAppend([s[0]], rest, v);
        OfSeverityAppend([s[0]], s[1..], v);
      }
      Insert(s[0], rest)
  }

  /** Issues already in severity order come out unchanged. */
  lemma {:induction false} SortSortedIdentity(s: seq<MappedIssue>)
    requires SortedBySeverity(s)
    ensures SortBySeverity(s) == s
  {
    if s != [] {
      SortSortedIdentity(s[1..]);
      assert s == [s[0]] + s[1..];
      if s[1..] != [] {
        assert s[1..][0] == s[1];
      }
    }
  }
}
