/** The stable sort of entries by their sequence number. */
module EntrySort {
  import opened Snapshots

  /** `e` goes behind every entry whose sequence is not greater. */
  function InsertBySequence(s: seq<EntryValues>, e: EntryValues): seq<EntryValues> {
    if s == [] then [e]
    else if e.sequence < s[0].sequence then [e] + s
    else [s[0]] + InsertBySequence(s[1..], e)
  }

  function SortBySequence(es: seq<EntryValues>): seq<EntryValues> {
    if es == [] then [] else InsertBySequence(SortBySequence(es[..|es| - 1]), es[|es| - 1])
  }

  ghost predicate BySequence(s: seq<EntryValues>) {
    forall i, j :: 0 <= i < j < |s| ==> s[i].sequence <= s[j].sequence
  }

  ghost predicate StrictlyBySequence(s: seq<EntryValues>) {
    forall i, j :: 0 <= i < j < |s| ==> s[i].sequence < s[j].sequence
  }

  /** The entries with one sequence number, in list order. */
  ghost function WithSequence(s: seq<EntryValues>, q: nat): seq<EntryValues> {
    if s == [] then []
    else if s[0].sequence == q then [s[0]] + WithSequence(s[1..], q)
    else WithSequence(s[1..], q)
  }

  lemma {:induction false} WithSequenceSnoc(s: seq<EntryValues>, e: EntryValues, q: nat)
    ensures WithSequence(s + [e], q) == if e.sequence == q then WithSequence(s, q) + [e] else WithSequence(s, q)
  {
    if s == [] {
      assert [e][1..] == [];
    } else {
      assert (s + [e])[1..] == s[1..] + [e];
      WithSequenceSnoc(s[1..], e, q);
    }
  }

  lemma {:induction false} InsertAdds(s: seq<EntryValues>, e: EntryValues)
    ensures multiset(InsertBySequence(s, e)) == multiset(s) + multiset{e}
    ensures |InsertBySequence(s, e)| == |s| + 1
  {
    if s != [] {
      assert s == [s[0]] + s[1..];
      if e.sequence >= s[0].sequence { InsertAdds(s[1..], e); }
    }
  }

  lemma {:induction false} InsertSorts(s: seq<EntryValues>, e: EntryValues)
    requires BySequence(s)
    ensures BySequence(InsertBySequence(s, e))
    ensures |InsertBySequence(s, e)| == |s| + 1
    ensures multiset(InsertBySequence(s, e)) == multiset(s) + multiset{e}
  {
    InsertAdds(s, e);
    if s == [] || e.sequence < s[0].sequence {
      ConsOrdered(e, s);
    } else {
      InsertSorts(s[1..], e);
      var tail := InsertBySequence(s[1..], e);
      forall x | x in tail ensures s[0].sequence <= x.sequence {
        assert x in multiset(tail);
      }
      hide InsertBySequence;
      ConsOrdered(s[0], tail);
    }
  }

  lemma ConsOrdered(x: EntryValues, s: seq<EntryValues>)
    requires BySequence(s) && forall y :: y in s ==> x.sequence <= y.sequence
    ensures BySequence([x] + s)
  {
  }

  lemma {:induction false} InsertIsStable(s: seq<EntryValues>, e: EntryValues, q: nat)
    requires BySequence(s)
    ensures WithSequence(InsertBySequence(s, e), q) == if e.sequence == q then WithSequence(s, q) + [e] else WithSequence(s, q)
  {
    if s != [] {
      if e.sequence < s[0].sequence {
        if q == e.sequence { NoneBelow(s, q); }
        assert ([e] + s)[1..] == s;
      } else {
        InsertIsStable(s[1..], e, q);
        assert ([s[0]] + InsertBySequence(s[1..], e))[1..] == InsertBySequence(s[1..], e);
      }
    }
  }

  lemma {:induction false} NoneBelow(s: seq<EntryValues>, q: nat)
    requires forall i :: 0 <= i < |s| ==> s[i].sequence > q
    ensures WithSequence(s, q) == []
  {
    if s != [] { NoneBelow(s[1..], q); }
  }

  /** The result is ordered, keeps every entry, and keeps the order of entries with equal sequence. */
  lemma {:induction false} SortSorts(es: seq<EntryValues>)
    ensures BySequence(SortBySequence(es))
    ensures |SortBySequence(es)| == |es|
    ensures multiset(SortBySequence(es)) == multiset(es)
    ensures forall q :: WithSequence(SortBySequence(es), q) == WithSequence(es, q)
  {
    if es != [] {
      var front, e := es[..|es| - 1], es[|es| - 1];
      assert es == front + [e];
      SortSorts(front);
      InsertSorts(SortBySequence(front), e);
      forall q ensures WithSequence(SortBySequence(es), q) == WithSequence(es, q) {
        InsertIsStable(SortBySequence(front), e, q);
        WithSequenceSnoc(front, e, q);
      }
    }
  }

  lemma SortMembers(es: seq<EntryValues>, e: EntryValues)
    ensures e in SortBySequence(es) <==> e in es
  {
    SortSorts(es);
    assert e in SortBySequence(es) <==> e in multiset(SortBySequence(es));
  }

  /** No two entries of the list share a sequence number. */
  ghost predicate DistinctSequences(es: seq<EntryValues>) {
    forall i, j :: 0 <= i < j < |es| ==> es[i].sequence != es[j].sequence
  }

  /** A strictly ordered list is determined by its elements. */
  lemma {:induction false} StrictUnique(a: seq<EntryValues>, b: seq<EntryValues>)
    requires StrictlyBySequence(a) && StrictlyBySequence(b)
    requires forall x :: x in a <==> x in b
    ensures a == b
  {
    assert a != [] ==> a[0] in a;
    assert b != [] ==> b[0] in b;
    if a != [] {
      assert a[0] == b[0] by {
        var i :| 0 <= i < |b| && b[i] == a[0];
        var j :| 0 <= j < |a| && a[j] == b[0];
      }
      forall x ensures x in a[1..] <==> x in b[1..] {
        assert x in a[1..] <==> x in a && x != a[0];
        assert x in b[1..] <==> x in b && x != b[0];
      }
      StrictUnique(a[1..], b[1..]);
    }
  }

  lemma SortStrict(es: seq<EntryValues>)
    requires DistinctSequences(es)
    ensures StrictlyBySequence(SortBySequence(es))
  {
    SortSorts(es);
    var s := SortBySequence(es);
    forall i, j | 0 <= i < j < |s| ensures s[i].sequence < s[j].sequence {
      if s[i].sequence == s[j].sequence {
        var q := s[i].sequence;
        AtMostOne(es, q);
        TwoWith(s, i, j);
      }
    }
  }

  lemma {:induction false} AtMostOne(es: seq<EntryValues>, q: nat)
    requires DistinctSequences(es)
    ensures |WithSequence(es, q)| <= 1
  {
    if es != [] {
      AtMostOne(es[1..], q);
      if es[0].sequence == q { NoneEqual(es[1..], q); }
    }
  }

  lemma {:induction false} NoneEqual(es: seq<EntryValues>, q: nat)
    requires forall i :: 0 <= i < |es| ==> es[i].sequence != q
    ensures WithSequence(es, q) == []
  {
    if es != [] { NoneEqual(es[1..], q); }
  }

  lemma {:induction false} TwoWith(s: seq<EntryValues>, i: nat, j: nat)
    requires i < j < |s| && s[i].sequence == s[j].sequence
    ensures |WithSequence(s, s[i].sequence)| >= 2
  {
    if i == 0 {
      OneWith(s[1..], j - 1);
    } else {
      TwoWith(s[1..], i - 1, j - 1);
    }
  }

  lemma {:induction false} OneWith(s: seq<EntryValues>, j: nat)
    requires j < |s|
    ensures |WithSequence(s, s[j].sequence)| >= 1
  {
    if j > 0 { OneWith(s[1..], j - 1); }
  }

  /** With distinct sequence numbers the sorted list does not depend on the order the entries came in. */
  lemma SortIgnoresOrder(a: seq<EntryValues>, b: seq<EntryValues>)
    requires DistinctSequences(a) && DistinctSequences(b)
    requires forall x :: x in a <==> x in b
    ensures SortBySequence(a) == SortBySequence(b)
  {
    SortStrict(a);
    SortStrict(b);
    forall x ensures x in SortBySequence(a) <==> x in SortBySequence(b) {
      SortMembers(a, x);
      SortMembers(b, x);
    }
    StrictUnique(SortBySequence(a), SortBySequence(b));
  }
}
