/**
 * The two aggregation functions that MongoDBReplicaSetImpl hands to its enrichers:
 * the replica set's primary endpoint and the sorted list of its members' endpoints.
 */
module Endpoints {
  import opened Wrappers

  /** Strings.isBlank: null, or only characters that String.trim removes (up to U+0020). */
  predicate IsBlank(s: Option<string>) {
    s.None? || forall i :: 0 <= i < |s.value| ==> s.value[i] <= ' '
  }

  /** String.compareTo(a, b) < 0: lexicographic by character, a proper prefix first. */
  predicate Less(a: string, b: string) {
    if a == [] then b != []
    else if b == [] then false
    else if a[0] != b[0] then a[0] < b[0]
    else Less(a[1..], b[1..])
  }

  lemma {:induction false} LessIrreflexive(a: string)
    ensures !Less(a, a)
  {
    if a != [] {
      LessIrreflexive(a[1..]);
    }
  }

  lemma {:induction false} LessAsymmetric(a: string, b: string)
    ensures Less(a, b) ==> !Less(b, a)
  {
    if a != [] && b != [] && a[0] == b[0] {
      LessAsymmetric(a[1..], b[1..]);
    }
  }

  lemma {:induction false} LessTransitive(a: string, b: string, c: string)
    ensures Less(a, b) && Less(b, c) ==> Less(a, c)
  {
    if a != [] && b != [] && c != [] && a[0] == b[0] && b[0] == c[0] {
      LessTransitive(a[1..], b[1..], c[1..]);
    }
  }

  lemma {:induction false} LessTotal(a: string, b: string)
    ensures a != b ==> Less(a, b) || Less(b, a)
  {
    if a != [] && b != [] && a[0] == b[0] {
      LessTotal(a[1..], b[1..]);
      if a[1..] == b[1..] {
        assert a == [a[0]] + a[1..] && b == [b[0]] + b[1..];
      }
    }
  }

  /** The iteration order of a TreeSet<String>: ascending and without duplicates. */
  ghost predicate StrictlySorted(s: seq<string>) {
    forall i, j :: 0 <= i < j < |s| ==> Less(s[i], s[j])
  }

  /** TreeSet.add on the ascending sequence of the set's elements. */
  function Insert(s: seq<string>, x: string): (r: seq<string>)
    requires StrictlySorted(s)
    ensures StrictlySorted(r)
    ensures forall e :: e in r <==> e in s || e == x
    decreases |s|
  {
    if s == [] then [x]
    else if x == s[0] then s
    else if Less(x, s[0]) then
      assert forall j :: 0 <= j < |s| ==> Less(x, s[j]) by {
        forall j | 0 <= j < |s| ensures Less(x, s[j]) {
          LessTransitive(x, s[0], s[j]);
        }
      }
      [x] + s
    else
      LessTotal(x, s[0]);
      var rest := Insert(s[1..], x);
      assert forall e :: e in rest ==> Less(s[0], e);
      [s[0]] + rest
  }

  /** Two ascending duplicate-free sequences with the same elements are the same sequence. */
  lemma {:induction false} StrictlySortedUnique(a: seq<string>, b: seq<string>)
    requires StrictlySorted(a) && StrictlySorted(b)
    requires forall e :: e in a <==> e in b
    ensures a == b
  {
    assert a != [] ==> a[0] in a;
    assert b != [] ==> b[0] in b;
    if a != [] && b != [] {
      if a[0] != b[0] {
        assert a[0] in a && b[0] in b;
        var i :| 0 <= i < |b| && b[i] == a[0];
        var j :| 0 <= j < |a| && a[j] == b[0];
        assert Less(b[0], a[0]);
        assert Less(a[0], b[0]);
        LessAsymmetric(a[0], b[0]);
        assert false;
      }
      LessIrreflexive(a[0]);
      forall e ensures e in a[1..] <==> e in b[1..] {
        if e in a[1..] {
          var k :| 0 <= k < |a| - 1 && a[1..][k] == e;
          assert a[k + 1] == e && e != a[0] && e in a && e in b;
          var m :| 0 <= m < |b| && b[m] == e;
          assert m != 0 && b[1..][m - 1] == e;
        }
        if e in b[1..] {
          var k :| 0 <= k < |b| - 1 && b[1..][k] == e;
          assert b[k + 1] == e && e != b[0] && e in b && e in a;
          var m :| 0 <= m < |a| && a[m] == e;
          assert m != 0 && a[1..][m - 1] == e;
        }
      }
      StrictlySortedUnique(a[1..], b[1..]);
    }
  }

  /**
   * REPLICA_SET_ENDPOINTS: every non-blank input endpoint is added to a TreeSet,
   * which is then copied to a list; the result is ascending, without duplicates,
   * and holds exactly the non-blank endpoints.
   */
  method ReplicaSetEndpoints(input: seq<Option<string>>) returns (r: seq<string>)
    ensures StrictlySorted(r)
    ensures forall e :: e in r <==> Some(e) in input && !IsBlank(Some(e))
  {
    r := [];
    for i := 0 to |input|
      invariant StrictlySorted(r)
      invariant forall e :: e in r <==> Some(e) in input[..i] && !IsBlank(Some(e))
    {
      assert input[..i + 1] == input[..i] + [input[i]];
      if !IsBlank(input[i]) {
        r := Insert(r, input[i].value);
      }
    }
    assert input[..|input|] == input;
  }

  /**
   * REPLICA_SET_PRIMARY_ENDPOINT: null for a null or empty input, otherwise the first
   * input element as it is, even when it is blank or null.
   */
  function PrimaryEndpoint(input: Option<seq<Option<string>>>): (r: Option<string>)
    ensures (input.None? || input.value == []) ==> r.None?
    ensures input.Some? && input.value != [] ==> r == input.value[0]
  {
    if input.None? || |input.value| == 0 then None else input.value[0]
  }

  /**
   * The primary endpoint is not filtered for blankness: whenever the first endpoint is
   * blank and a later one is not, the blank one is returned, and it is never in the
   * endpoint list built from the same input.
   */
  lemma PrimaryEndpointKeepsBlank(input: seq<Option<string>>, k: nat, endpoints: seq<string>)
    requires 0 < k < |input| && IsBlank(input[0]) && !IsBlank(input[k])
    requires forall e :: e in endpoints <==> Some(e) in input && !IsBlank(Some(e))
    ensures PrimaryEndpoint(Some(input)) == input[0]
    ensures input[0].Some? ==> input[0].value !in endpoints
  {
  }
}
