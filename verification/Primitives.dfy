/** Identifiers and the two membership edge shapes shared by every module.
    Identifiers are opaque values with a total order; a natural number has both.
    A set is backed by an account with the same identifier, so the two types coincide. */
module Primitives {
  type AccountId = nat
  type AccountSetId = nat
  type JournalId = nat
  type Currency = nat
  type TransactionId = nat
  type EntryId = nat
  /** A calendar day. */
  type Date = int

  datatype Option<+T> = None | Some(value: T)

  /** `member` is a direct member of `container`. */
  datatype SetMembership = SetMembership(container: AccountSetId, member: AccountSetId)

  /** `account` is a direct member of `container`. */
  datatype AccountMembership = AccountMembership(container: AccountSetId, account: AccountId)
}

/** Small facts about sequences without repetition. */
module Distinctness {
  ghost predicate Distinct<T>(s: seq<T>) {
    forall i, j :: 0 <= i < j < |s| ==> s[i] != s[j]
  }

  ghost function Elements<T>(s: seq<T>): set<T> {
    set x | x in s
  }

  lemma {:induction false} DistinctCardinality<T>(s: seq<T>)
    requires Distinct(s)
    ensures |Elements(s)| == |s|
  {
    if s == [] {
      assert Elements(s) == {};
    } else {
      var n := |s| - 1;
      DistinctCardinality(s[..n]);
      assert s == s[..n] + [s[n]];
      assert Elements(s) == Elements(s[..n]) + {s[n]};
      assert s[n] !in s[..n];
    }
  }

  lemma DistinctAt<T>(s: seq<T>, k: nat)
    requires Distinct(s) && k < |s|
    ensures s[k] !in s[..k]
  {
  }

  lemma SubsetCardinality<T>(a: set<T>, b: set<T>)
    requires a <= b
    ensures |a| <= |b|
    ensures |a| == |b| ==> a == b
  {
    assert b == a + (b - a);
    if |a| == |b| {
      assert |b - a| == 0;
    }
  }

  /** A repetition-free sequence over a finite set is no longer than the set,
      and is exactly as long only if it lists the whole set. */
  lemma DistinctWithin<T>(s: seq<T>, universe: set<T>)
    requires Distinct(s)
    requires forall x :: x in s ==> x in universe
    ensures |s| <= |universe|
    ensures |s| == |universe| <==> Elements(s) == universe
  {
    DistinctCardinality(s);
    SubsetCardinality(Elements(s), universe);
  }

  /** Two lists with the same elements stay so when the last of one and a match in the other are removed. */
  lemma RemoveMatch<T>(a: seq<T>, b: seq<T>) returns (i: nat)
    requires a != [] && multiset(a) == multiset(b)
    ensures i < |b| && b[i] == a[|a| - 1]
    ensures multiset(a[..|a| - 1]) == multiset(b[..i] + b[i + 1..])
  {
    var n, x := |a| - 1, a[|a| - 1];
    assert a == a[..n] + [x];
    assert x in multiset(b);
    i :| i < |b| && b[i] == x;
    assert b == b[..i] + [x] + b[i + 1..];
    assert multiset(b[..i] + b[i + 1..]) == multiset(b) - multiset{x};
    assert multiset(a[..n]) == multiset(a) - multiset{x};
  }
}
