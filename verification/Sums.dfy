/** Sums over finite sets of accounts. */
module Sums {
  import opened Primitives

  ghost function SumOver(A: set<AccountId>, f: AccountId -> int): int {
    if A == {} then 0 else
      var a :| a in A;
      f(a) + SumOver(A - {a}, f)
  }

  lemma {:induction false} SumRemove(A: set<AccountId>, f: AccountId -> int, x: AccountId)
    requires x in A
    ensures SumOver(A, f) == f(x) + SumOver(A - {x}, f)
    decreases |A|
  {
    var a :| a in A && SumOver(A, f) == f(a) + SumOver(A - {a}, f);
    if a != x {
      SumRemove(A - {a}, f, x);
      SumRemove(A - {x}, f, a);
      assert A - {a} - {x} == A - {x} - {a};
    }
  }

  lemma {:induction false} SumSame(A: set<AccountId>, f: AccountId -> int, g: AccountId -> int)
    requires forall a :: a in A ==> f(a) == g(a)
    ensures SumOver(A, f) == SumOver(A, g)
    decreases |A|
  {
    if A != {} {
      var a :| a in A;
      SumRemove(A, f, a);
      SumRemove(A, g, a);
      SumSame(A - {a}, f, g);
    }
  }

  lemma {:induction false} SumPlus(A: set<AccountId>, f: AccountId -> int, g: AccountId -> int, h: AccountId -> int)
    requires forall a :: a in A ==> h(a) == f(a) + g(a)
    ensures SumOver(A, h) == SumOver(A, f) + SumOver(A, g)
    decreases |A|
  {
    if A != {} {
      var a :| a in A;
      SumRemove(A, f, a);
      SumRemove(A, g, a);
      SumRemove(A, h, a);
      SumPlus(A - {a}, f, g, h);
    }
  }

  /** Accounts that count for nothing can be left out. */
  lemma {:induction false} SumZeros(A: set<AccountId>, B: set<AccountId>, f: AccountId -> int)
    requires A <= B && forall a :: a in B - A ==> f(a) == 0
    ensures SumOver(B, f) == SumOver(A, f)
    decreases |B - A|
  {
    if B - A == {} {
      assert A == B;
    } else {
      var a :| a in B - A;
      SumRemove(B, f, a);
      SumZeros(A, B - {a}, f);
    }
  }

  lemma {:induction false} SumUnion(A: set<AccountId>, B: set<AccountId>, f: AccountId -> int)
    requires A !! B
    ensures SumOver(A + B, f) == SumOver(A, f) + SumOver(B, f)
    decreases |A|
  {
    if A == {} {
      assert A + B == B;
    } else {
      var a :| a in A;
      SumRemove(A, f, a);
      SumRemove(A + B, f, a);
      assert A + B - {a} == (A - {a}) + B;
      SumUnion(A - {a}, B, f);
    }
  }
}
