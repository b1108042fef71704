/**
 * Role classification of replica-set members and the read-only views built on it:
 * IS_PRIMARY, IS_SECONDARY, getPrimary, getSecondaries and the removal strategy
 * of MongoDBReplicaSetImpl.
 */
module Roles {
  import opened Wrappers

  /** Identity of a MongoDB server entity (the source compares entities by reference). */
  type ServerId = nat

  /**
   * The REPLICA_SET_MEMBER_STATUS attribute of a server. Other stands for every
   * status that is neither PRIMARY nor SECONDARY, and for an unset attribute.
   */
  datatype MemberStatus = Primary | Secondary | Other

  /** A member of the replica set as it is seen at one instant. */
  datatype Replica = Replica(server: ServerId, status: MemberStatus)

  /** IS_PRIMARY: the member reports status PRIMARY. */
  predicate IsPrimary(r: Replica) {
    r.status == Primary
  }

  /** IS_SECONDARY: the member reports status SECONDARY; never true of a primary. */
  predicate IsSecondary(r: Replica)
    ensures IsSecondary(r) ==> !IsPrimary(r)
  {
    r.status == Secondary
  }

  /** Predicates.not(IS_PRIMARY), the search condition of the removal strategy. */
  predicate NotPrimary(r: Replica) {
    !IsPrimary(r)
  }

  /** Iterables.tryFind: the index of the first element satisfying p, if there is one. */
  function TryFind<T>(s: seq<T>, p: T -> bool): (r: Option<nat>)
    ensures r.Some? ==> r.value < |s| && p(s[r.value])
    ensures r.Some? ==> forall j :: 0 <= j < r.value ==> !p(s[j])
    ensures r.None? ==> forall j :: 0 <= j < |s| ==> !p(s[j])
  {
    if |s| == 0 then None
    else if p(s[0]) then Some(0)
    else match TryFind(s[1..], p)
      case None => None
      case Some(k) => Some(k + 1)
  }

  /** getPrimary: the first member, in order, whose status is PRIMARY, or null. */
  function GetPrimary(members: seq<Replica>): (r: Option<Replica>)
    ensures r.None? <==> forall j :: 0 <= j < |members| ==> !IsPrimary(members[j])
    ensures forall i :: 0 <= i < |members| ==>
              (IsPrimary(members[i]) && forall j :: 0 <= j < i ==> !IsPrimary(members[j])) ==>
              r == Some(members[i])
  {
    match TryFind(members, IsPrimary)
    case None => None
    case Some(k) => Some(members[k])
  }

  /** getSecondaries: the members whose status is SECONDARY, in their original order. */
  function GetSecondaries(members: seq<Replica>): (r: seq<Replica>)
    ensures forall x :: x in r <==> x in members && IsSecondary(x)
    ensures |r| <= |members|
  {
    if members == [] then []
    else (if IsSecondary(members[0]) then [members[0]] else []) + GetSecondaries(members[1..])
  }

  /**
   * The filter distributes over concatenation: members keep their relative order,
   * and the secondaries of an earlier part come before those of a later part.
   */
  lemma {:induction false} GetSecondariesAppend(a: seq<Replica>, b: seq<Replica>)
    ensures GetSecondaries(a + b) == GetSecondaries(a) + GetSecondaries(b)
  {
    if a == [] {
      assert a + b == b;
    } else {
      assert (a + b)[0] == a[0];
      assert (a + b)[1..] == a[1..] + b;
      GetSecondariesAppend(a[1..], b);
    }
  }

  /**
   * NON_PRIMARY_REMOVAL_STRATEGY: the first member that is not primary, or the
   * first member when all are primary. None stands for the IllegalArgumentException
   * thrown on an empty collection.
   */
  function NonPrimaryRemoval(entities: seq<Replica>): (r: Option<Replica>)
    ensures r.None? <==> entities == []
    ensures r.Some? ==> r.value in entities
    ensures forall i :: 0 <= i < |entities| ==>
              (!IsPrimary(entities[i]) && forall j :: 0 <= j < i ==> IsPrimary(entities[j])) ==>
              r == Some(entities[i])
    ensures (entities != [] && forall j :: 0 <= j < |entities| ==> IsPrimary(entities[j])) ==>
              r == Some(entities[0])
  {
    if entities == [] then None
    else match TryFind(entities, NotPrimary)
      case Some(k) => Some(entities[k])
      case None => Some(entities[0])
  }
}
