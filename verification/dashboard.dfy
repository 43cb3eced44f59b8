/**
 * The dashboard's aggregates over the submitted records: how many there
 * are, how many there are of each insurance type, and how each row is
 * labelled. Every record is assumed present; a missing record makes the
 * page's property read fail.
 */
module Dashboard {
  import opened Values
  import opened Submissions

  const TypeKey := "Insurance Type"
  const NameKey := "Full Name"
  const StatusKey := "Status"
  const Unnamed := "Unnamed Application"

  /** totalApplications: every record counts. */
  function TotalApplications(subs: seq<Record>): nat {
    |subs|
  }

  /** Whether record `s` is counted under key `k`: its type is truthy and reads as `k` when used as a property name. */
  predicate OfType(s: Record, k: string) {
    Truthy(Get(s, TypeKey)) && ToJsString(Get(s, TypeKey)) == k
  }

  /** The number of records counted under `k`. */
  function CountOf(subs: seq<Record>, k: string): (n: nat)
    ensures n <= |subs|
  {
    if subs == [] then 0
    else CountOf(subs[..|subs| - 1], k) + (if OfType(subs[|subs| - 1], k) then 1 else 0)
  }

  /** A key is counted exactly when some record has that type. */
  lemma {:induction false} CountedIffPresent(subs: seq<Record>, k: string)
    ensures CountOf(subs, k) > 0 <==> exists i :: 0 <= i < |subs| && OfType(subs[i], k)
    decreases |subs|
  {
    if subs != [] {
      var rest, last := subs[..|subs| - 1], subs[|subs| - 1];
      CountedIffPresent(rest, k);
      if !OfType(last, k) {
        assert CountOf(subs, k) == CountOf(rest, k);
        forall i | 0 <= i < |subs| && OfType(subs[i], k)
          ensures 0 <= i < |rest| && OfType(rest[i], k)
        {
        }
        forall i | 0 <= i < |rest| && OfType(rest[i], k)
          ensures OfType(subs[i], k)
        {
          assert subs[i] == rest[i];
        }
      } else {
        assert OfType(subs[|subs| - 1], k);
      }
    }
  }

  /** A record of type `k` is one more under `k` and nowhere else. */
  lemma CountStep(subs: seq<Record>, i: nat)
    requires i < |subs|
    ensures forall k :: CountOf(subs[..i + 1], k) == CountOf(subs[..i], k) + (if OfType(subs[i], k) then 1 else 0)
    ensures Typed(subs[..i + 1]) == Typed(subs[..i]) + (if Truthy(Get(subs[i], TypeKey)) then 1 else 0)
  {
    assert subs[..i + 1][..i] == subs[..i];
  }

  /** The number of records with a truthy type. */
  function Typed(subs: seq<Record>): (n: nat)
    ensures n <= |subs|
  {
    if subs == [] then 0
    else Typed(subs[..|subs| - 1]) + (if Truthy(Get(subs[|subs| - 1], TypeKey)) then 1 else 0)
  }

  /** The sum of the counts of a map, taken key by key. */
  ghost function Sum(m: map<string, nat>): int
    decreases |m.Keys|
  {
    if m == map[] then 0
    else
      var k :| k in m;
      m[k] + Sum(m - {k})
  }

  /** Sum does not depend on which key is taken first. */
  lemma {:induction false} SumRemove(m: map<string, nat>, k: string)
    requires k in m
    ensures Sum(m) == m[k] + Sum(m - {k})
    decreases |m.Keys|
  {
    var j :| j in m && Sum(m) == m[j] + Sum(m - {j});
    if j != k {
      SumRemove(m - {j}, k);
      SumRemove(m - {k}, j);
      assert m - {j} - {k} == m - {k} - {j};
    }
  }

  lemma SumIncrement(m: map<string, nat>, k: string)
    ensures Sum(m[k := (if k in m then m[k] else 0) + 1]) == Sum(m) + 1
  {
    var m' := m[k := (if k in m then m[k] else 0) + 1];
    SumRemove(m', k);
    assert m' - {k} == m - {k};
    if k in m {
      SumRemove(m, k);
    } else {
      assert m - {k} == m;
    }
  }

  /**
   * applicationsByType: one pass over the records, adding one under the
   * type of each record whose type is truthy.
   */
  method CountByType(subs: seq<Record>) returns (counts: map<string, nat>)
    ensures forall k :: k in counts <==> CountOf(subs, k) > 0
    ensures forall k :: k in counts ==> counts[k] == CountOf(subs, k) && counts[k] >= 1
    ensures Sum(counts) == Typed(subs) <= TotalApplications(subs)
  {
    counts := map[];
    var i := 0;
    while i < |subs|
      invariant 0 <= i <= |subs|
      invariant forall k :: k in counts <==> CountOf(subs[..i], k) > 0
      invariant forall k :: k in counts ==> counts[k] == CountOf(subs[..i], k)
      invariant Sum(counts) == Typed(subs[..i])
    {
      CountStep(subs, i);
      var t := Get(subs[i], TypeKey);
      if Truthy(t) {
        var key := ToJsString(t);
        assert forall k :: OfType(subs[i], k) <==> k == key;
        SumIncrement(counts, key);
        counts := counts[key := (if key in counts then counts[key] else 0) + 1];
      }
      i := i + 1;
    }
    assert subs[..i] == subs;
  }

  /** The name a row is listed under: the full name when truthy, otherwise a fixed placeholder. */
  function DisplayName(s: Record): (r: Value)
    ensures Truthy(r)
    ensures Truthy(Get(s, NameKey)) ==> r == Get(s, NameKey)
    ensures !Truthy(Get(s, NameKey)) ==> r == Str(Unnamed)
  {
    var name := Get(s, NameKey);
    if Truthy(name) then name else Str(Unnamed)
  }

  /** The badge of a dashboard row, read from its status cell. */
  function RowBadge(s: Record): (r: Variant)
    ensures r == Success <==> Get(s, StatusKey) == Str("Approved")
    ensures r == Warning <==> Get(s, StatusKey) == Str("Pending")
  {
    BadgeVariant(Get(s, StatusKey))
  }
}
