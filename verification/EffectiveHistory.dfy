/** Whole runs of back-dated postings on one balance: what any order of posting leaves behind, and when posting a
    batch at once writes the same rows as posting its parts one after the other. */
module EffectiveHistory {
  import opened Primitives
  import opened Distinctness
  import opened Snapshots
  import opened EntrySort
  import opened EffectiveData
  import Balances

  /** One posting, or one group of postings at one date, as one balance sees it. */
  datatype Posted = Posted(date: Date, entries: seq<EntryValues>)

  ghost function LogAfter(log: Log, posts: seq<Posted>): Log {
    if posts == [] then log
    else
      var post := posts[|posts| - 1];
      Inserted(LogAfter(log, posts[..|posts| - 1]), post.date, post.entries)
  }

  lemma LogAfterSnoc(log: Log, posts: seq<Posted>, post: Posted)
    ensures LogAfter(log, posts + [post]) == Inserted(LogAfter(log, posts), post.date, post.entries)
    ensures LogAfter(log, []) == log
  {
    assert (posts + [post])[..|posts|] == posts;
  }

  lemma {:induction false} LogAfterByDate(log: Log, posts: seq<Posted>)
    requires ByDate(log)
    ensures ByDate(LogAfter(log, posts))
  {
    if posts != [] {
      var n := |posts| - 1;
      LogAfterByDate(log, posts[..n]);
      InsertedByDate(LogAfter(log, posts[..n]), posts[n].date, posts[n].entries);
    }
  }

  // ---------------------------------------------------------------- what stands on or before a date

  /** Units of one layer and side dated on or before `d`. */
  ghost function SumUpTo(log: Log, d: Date, layer: Layer, direction: DebitOrCredit): int {
    if log == [] then 0
    else
      var last := log[|log| - 1];
      SumUpTo(log[..|log| - 1], d, layer, direction) +
      if last.date <= d && last.entry.layer == layer && last.entry.direction == direction then last.entry.units else 0
  }

  /** The same over a list of postings, in whatever order and grouping. */
  ghost function PostedUpTo(posts: seq<Posted>, d: Date, layer: Layer, direction: DebitOrCredit): int {
    if posts == [] then 0
    else
      var post := posts[|posts| - 1];
      PostedUpTo(posts[..|posts| - 1], d, layer, direction) + if post.date <= d then Units(post.entries, layer, direction) else 0
  }

  ghost function CountUpTo(posts: seq<Posted>, d: Date): nat {
    if posts == [] then 0
    else
      var post := posts[|posts| - 1];
      CountUpTo(posts[..|posts| - 1], d) + if post.date <= d then |post.entries| else 0
  }

  lemma {:induction false} SumConcat(a: Log, b: Log, d: Date, layer: Layer, direction: DebitOrCredit)
    ensures SumUpTo(a + b, d, layer, direction) == SumUpTo(a, d, layer, direction) + SumUpTo(b, d, layer, direction)
    ensures UpTo(a + b, d) == UpTo(a, d) + UpTo(b, d)
  {
    if b == [] {
      assert a + b == a;
    } else {
      SumConcat(a, b[..|b| - 1], d, layer, direction);
      assert (a + b)[..|a + b| - 1] == a + b[..|b| - 1];
    }
  }

  lemma {:induction false} SumAllAt(date: Date, es: seq<EntryValues>, d: Date, layer: Layer, direction: DebitOrCredit)
    ensures SumUpTo(AllAt(date, es), d, layer, direction) == if date <= d then Units(es, layer, direction) else 0
    ensures UpTo(AllAt(date, es), d) == if date <= d then |es| else 0
  {
    if es != [] {
      SumAllAt(date, es[..|es| - 1], d, layer, direction);
      assert AllAt(date, es)[..|es| - 1] == AllAt(date, es[..|es| - 1]);
    }
  }

  lemma {:induction false} SumAll(log: Log, d: Date, layer: Layer, direction: DebitOrCredit)
    requires forall i :: 0 <= i < |log| ==> log[i].date <= d
    ensures SumUpTo(log, d, layer, direction) == Units(Entries(log), layer, direction)
  {
    if log != [] {
      SumAll(log[..|log| - 1], d, layer, direction);
      assert Entries(log)[..|log| - 1] == Entries(log[..|log| - 1]);
    }
  }

  lemma {:induction false} SumNone(log: Log, d: Date, layer: Layer, direction: DebitOrCredit)
    requires forall i :: 0 <= i < |log| ==> log[i].date > d
    ensures SumUpTo(log, d, layer, direction) == 0
  {
    if log != [] { SumNone(log[..|log| - 1], d, layer, direction); }
  }

  /** The prefix up to a date is exactly what is dated on or before it. */
  lemma SumIsPrefix(log: Log, d: Date, layer: Layer, direction: DebitOrCredit)
    requires ByDate(log)
    ensures Units(Entries(log)[..UpTo(log, d)], layer, direction) == SumUpTo(log, d, layer, direction)
  {
    hide SumUpTo, Units, UpTo, Entries, ByDate;
    var j := UpTo(log, d);
    UpToSplits(log, d);
    SumAll(log[..j], d, layer, direction);
    SumNone(log[j..], d, layer, direction);
    SumConcat(log[..j], log[j..], d, layer, direction);
    assert log == log[..j] + log[j..];
    EntriesPrefix(log, j);
  }

  lemma {:induction false} UnitsInsert(s: seq<EntryValues>, e: EntryValues, layer: Layer, direction: DebitOrCredit)
    ensures Units(InsertBySequence(s, e), layer, direction) == Units(s, layer, direction) + Units([e], layer, direction)
  {
    if s == [] {
      assert [] + [e] == [e];
    } else if e.sequence < s[0].sequence {
      UnitsConcat([e], s, layer, direction);
    } else {
      UnitsInsert(s[1..], e, layer, direction);
      UnitsConcat([s[0]], InsertBySequence(s[1..], e), layer, direction);
      UnitsConcat([s[0]], s[1..], layer, direction);
      assert s == [s[0]] + s[1..];
    }
  }

  lemma {:induction false} UnitsSorted(es: seq<EntryValues>, layer: Layer, direction: DebitOrCredit)
    ensures Units(SortBySequence(es), layer, direction) == Units(es, layer, direction)
  {
    if es != [] {
      var front, e := es[..|es| - 1], es[|es| - 1];
      UnitsSorted(front, layer, direction);
      UnitsInsert(SortBySequence(front), e, layer, direction);
      UnitsConcat(front, [e], layer, direction);
      assert es == front + [e];
    }
  }

  lemma SumInserted(log: Log, date: Date, es: seq<EntryValues>, d: Date, layer: Layer, direction: DebitOrCredit)
    ensures SumUpTo(Inserted(log, date, es), d, layer, direction) ==
            SumUpTo(log, d, layer, direction) + if date <= d then Units(es, layer, direction) else 0
    ensures UpTo(Inserted(log, date, es), d) == UpTo(log, d) + if date <= d then |es| else 0
  {
    var j, mid := UpTo(log, date), AllAt(date, SortBySequence(es));
    SumConcat(log[..j] + mid, log[j..], d, layer, direction);
    SumConcat(log[..j], mid, d, layer, direction);
    SumConcat(log[..j], log[j..], d, layer, direction);
    assert log == log[..j] + log[j..];
    SumAllAt(date, SortBySequence(es), d, layer, direction);
    UnitsSorted(es, layer, direction);
    SortSorts(es);
  }

  lemma {:induction false} SumAfter(log: Log, posts: seq<Posted>, d: Date, layer: Layer, direction: DebitOrCredit)
    ensures SumUpTo(LogAfter(log, posts), d, layer, direction) ==
              SumUpTo(log, d, layer, direction) + PostedUpTo(posts, d, layer, direction)
    ensures UpTo(LogAfter(log, posts), d) == UpTo(log, d) + CountUpTo(posts, d)
  {
    if posts != [] {
      var n := |posts| - 1;
      SumAfter(log, posts[..n], d, layer, direction);
      SumInserted(LogAfter(log, posts[..n]), posts[n].date, posts[n].entries, d, layer, direction);
    }
  }

  lemma {:induction false} PostedConcat(a: seq<Posted>, b: seq<Posted>, d: Date, layer: Layer, direction: DebitOrCredit)
    ensures PostedUpTo(a + b, d, layer, direction) == PostedUpTo(a, d, layer, direction) + PostedUpTo(b, d, layer, direction)
    ensures CountUpTo(a + b, d) == CountUpTo(a, d) + CountUpTo(b, d)
  {
    if b == [] {
      assert a + b == a;
    } else {
      PostedConcat(a, b[..|b| - 1], d, layer, direction);
      assert (a + b)[..|a + b| - 1] == a + b[..|b| - 1];
    }
  }

  /** Totals up to a date do not depend on the order of the postings. */
  lemma {:induction false} OrderDoesNotMatter(a: seq<Posted>, b: seq<Posted>, d: Date, layer: Layer,
                                              direction: DebitOrCredit)
    requires multiset(a) == multiset(b)
    ensures PostedUpTo(a, d, layer, direction) == PostedUpTo(b, d, layer, direction)
    ensures CountUpTo(a, d) == CountUpTo(b, d)
  {
    assert b != [] ==> b[0] in multiset(b);
    if a != [] {
      var n, p := |a| - 1, a[|a| - 1];
      var i := RemoveMatch(a, b);
      OrderDoesNotMatter(a[..n], b[..i] + b[i + 1..], d, layer, direction);
      assert a == a[..n] + [p];
      hide PostedUpTo, CountUpTo;
      PostedRemove(b, i, d, layer, direction);
      PostedConcat(a[..n], [p], d, layer, direction);
    }
  }

  lemma PostedRemove(b: seq<Posted>, i: nat, d: Date, layer: Layer, direction: DebitOrCredit)
    requires i < |b|
    ensures var rest := b[..i] + b[i + 1..];
            && PostedUpTo(b, d, layer, direction) == PostedUpTo(rest, d, layer, direction) + PostedUpTo([b[i]], d, layer, direction)
            && CountUpTo(b, d) == CountUpTo(rest, d) + CountUpTo([b[i]], d)
  {
    hide PostedUpTo, CountUpTo;
    assert b == b[..i] + [b[i]] + b[i + 1..];
    PostedConcat(b[..i] + [b[i]], b[i + 1..], d, layer, direction);
    PostedConcat(b[..i], [b[i]], d, layer, direction);
    PostedConcat(b[..i], b[i + 1..], d, layer, direction);
  }

  // ---------------------------------------------------------------- a log is its days

  /** The entries of one date, in log order. */
  ghost function OnDay(log: Log, d: Date): seq<EntryValues> {
    if log == [] then []
    else
      var last := log[|log| - 1];
      var front := OnDay(log[..|log| - 1], d);
      if last.date == d then front + [last.entry] else front
  }

  lemma {:induction false} OnDayConcat(a: Log, b: Log, d: Date)
    ensures OnDay(a + b, d) == OnDay(a, d) + OnDay(b, d)
  {
    if b == [] {
      assert a + b == a;
    } else {
      OnDayConcat(a, b[..|b| - 1], d);
      assert (a + b)[..|a + b| - 1] == a + b[..|b| - 1];
    }
  }

  lemma {:induction false} OnDayMember(log: Log, d: Date)
    ensures OnDay(log, d) != [] <==> exists i :: 0 <= i < |log| && log[i].date == d
  {
    if log != [] {
      var n := |log| - 1;
      OnDayMember(log[..n], d);
      assert forall i :: 0 <= i < n ==> log[..n][i] == log[i];
      if log[n].date != d && OnDay(log, d) != [] {
        var i :| 0 <= i < n && log[..n][i].date == d;
      }
    }
  }

  lemma {:induction false} OnDayAllAt(date: Date, es: seq<EntryValues>, d: Date)
    ensures OnDay(AllAt(date, es), d) == if d == date then es else []
  {
    if es != [] {
      OnDayAllAt(date, es[..|es| - 1], d);
      assert AllAt(date, es)[..|es| - 1] == AllAt(date, es[..|es| - 1]);
    }
  }

  lemma OnDayInserted(log: Log, date: Date, es: seq<EntryValues>, d: Date)
    requires ByDate(log)
    ensures OnDay(Inserted(log, date, es), d) == if d == date then OnDay(log, d) + SortBySequence(es) else OnDay(log, d)
  {
    hide OnDay, ByDate, UpTo, AllAt, SortBySequence;
    var j, sorted := UpTo(log, date), SortBySequence(es);
    var head, mid, tail := log[..j], AllAt(date, sorted), log[j..];
    assert log == head + tail;
    NothingBehind(log, date);
    OnDayAllAt(date, sorted, d);
    OnDayConcat(head + mid, tail, d);
    OnDayConcat(head, mid, d);
    OnDayConcat(head, tail, d);
  }

  lemma NothingBehind(log: Log, date: Date)
    requires ByDate(log)
    ensures OnDay(log[UpTo(log, date)..], date) == []
  {
    UpToSplits(log, date);
    OnDayMember(log[UpTo(log, date)..], date);
  }

  /** A log ordered by date is determined by the entries of each of its dates. */
  lemma {:induction false} DeterminedByDays(a: Log, b: Log)
    requires ByDate(a) && ByDate(b)
    requires forall d :: OnDay(a, d) == OnDay(b, d)
    ensures a == b
  {
    hide OnDay;
    SomeDay(a, b);
    SomeDay(b, a);
    if a != [] {
      var m, n := |a| - 1, |b| - 1;
      LastDay(a, b);
      LastDay(b, a);
      DropLast(a, b, a[m].date);
      forall d ensures OnDay(a[..m], d) == OnDay(b[..n], d) { DropLast(a, b, d); }
      DeterminedByDays(a[..m], b[..n]);
      assert a == a[..m] + [a[m]] && b == b[..n] + [b[n]];
    }
  }

  lemma SomeDay(a: Log, b: Log)
    requires forall d :: OnDay(a, d) == OnDay(b, d)
    ensures a != [] ==> b != []
  {
    if a != [] { assert OnDay(a, a[|a| - 1].date) == OnDay(b, a[|a| - 1].date); }
  }

  lemma DropLast(a: Log, b: Log, d: Date)
    requires a != [] && b != [] && a[|a| - 1].date == b[|b| - 1].date
    requires OnDay(a, d) == OnDay(b, d) && OnDay(a, a[|a| - 1].date) == OnDay(b, a[|a| - 1].date)
    ensures OnDay(a[..|a| - 1], d) == OnDay(b[..|b| - 1], d) && a[|a| - 1] == b[|b| - 1]
  {
    var m, n := |a| - 1, |b| - 1;
    SnocInjective(OnDay(a[..m], a[m].date), OnDay(b[..n], a[m].date), a[m].entry, b[n].entry);
  }

  lemma SnocInjective<T>(s: seq<T>, t: seq<T>, x: T, y: T)
    requires s + [x] == t + [y]
    ensures s == t && x == y
  {
    assert s == (s + [x])[..|s|] && t == (t + [y])[..|t|];
    assert (s + [x])[|s|] == x && (t + [y])[|t|] == y;
  }

  lemma LastDay(a: Log, b: Log)
    requires a != [] && b != [] && ByDate(b)
    requires forall d :: OnDay(a, d) == OnDay(b, d)
    ensures a[|a| - 1].date <= b[|b| - 1].date
  {
    var day := a[|a| - 1].date;
    assert OnDay(a, day) != [];
    OnDayMember(b, day);
  }

  // ---------------------------------------------------------------- batches

  /** The entries posted at one date, each posting sorted on its own. */
  ghost function SortedParts(posts: seq<Posted>, d: Date): seq<EntryValues> {
    if posts == [] then []
    else
      var post := posts[|posts| - 1];
      var front := SortedParts(posts[..|posts| - 1], d);
      if post.date == d then front + SortBySequence(post.entries) else front
  }

  /** The entries posted at one date, in posting order. */
  ghost function Gathered(posts: seq<Posted>, d: Date): seq<EntryValues> {
    if posts == [] then []
    else
      var post := posts[|posts| - 1];
      var front := Gathered(posts[..|posts| - 1], d);
      if post.date == d then front + post.entries else front
  }

  lemma {:induction false} OnDayAfter(log: Log, posts: seq<Posted>, d: Date)
    requires ByDate(log)
    ensures OnDay(LogAfter(log, posts), d) == OnDay(log, d) + SortedParts(posts, d)
  {
    hide Inserted, OnDay, ByDate, SortBySequence;
    if posts != [] {
      var n := |posts| - 1;
      OnDayAfter(log, posts[..n], d);
      LogAfterByDate(log, posts[..n]);
      OnDayInserted(LogAfter(log, posts[..n]), posts[n].date, posts[n].entries, d);
    }
  }

  /** Each date once, with everything posted at it. */
  ghost predicate Groups(posts: seq<Posted>, groups: seq<Posted>) {
    && (forall i, j :: 0 <= i < j < |groups| ==> groups[i].date != groups[j].date)
    && (forall d :: Gathered(groups, d) == Gathered(posts, d))
  }

  /** The postings that are not at date `day`. */
  ghost function OffDay(posts: seq<Posted>, day: Date): seq<Posted> {
    if posts == [] then []
    else
      var front, post := OffDay(posts[..|posts| - 1], day), posts[|posts| - 1];
      if post.date == day then front else front + [post]
  }

  lemma GatheredSnoc(posts: seq<Posted>, post: Posted, day: Date)
    ensures Gathered(posts + [post], day) == if post.date == day then Gathered(posts, day) + post.entries else Gathered(posts, day)
    ensures OffDay(posts + [post], day) == if post.date == day then OffDay(posts, day) else OffDay(posts, day) + [post]
  {
    assert (posts + [post])[..|posts|] == posts;
  }

  lemma PostedSnoc(posts: seq<Posted>, post: Posted, d: Date, layer: Layer, direction: DebitOrCredit)
    ensures PostedUpTo(posts + [post], d, layer, direction) ==
            PostedUpTo(posts, d, layer, direction) + if post.date <= d then Units(post.entries, layer, direction) else 0
    ensures CountUpTo(posts + [post], d) == CountUpTo(posts, d) + if post.date <= d then |post.entries| else 0
  {
    assert (posts + [post])[..|posts|] == posts;
  }

  /** A date contributes what was gathered at it, however it was grouped. */
  lemma {:induction false} OffDayTotals(posts: seq<Posted>, day: Date, d: Date, layer: Layer, direction: DebitOrCredit)
    ensures PostedUpTo(posts, d, layer, direction) ==
            PostedUpTo(OffDay(posts, day), d, layer, direction) + if day <= d then Units(Gathered(posts, day), layer, direction) else 0
    ensures CountUpTo(posts, d) == CountUpTo(OffDay(posts, day), d) + if day <= d then |Gathered(posts, day)| else 0
  {
    if posts != [] {
      hide *;
      var front, post := posts[..|posts| - 1], posts[|posts| - 1];
      assert posts == front + [post];
      OffDayTotals(front, day, d, layer, direction);
      GatheredSnoc(front, post, day);
      PostedSnoc(front, post, d, layer, direction);
      PostedSnoc(OffDay(front, day), post, d, layer, direction);
      UnitsConcat(Gathered(front, day), post.entries, layer, direction);
    }
  }

  lemma {:induction false} OffDayGathered(posts: seq<Posted>, day: Date, d: Date)
    ensures Gathered(OffDay(posts, day), d) == if d == day then [] else Gathered(posts, d)
    ensures |OffDay(posts, day)| <= |posts|
    ensures posts != [] && posts[|posts| - 1].date == day ==> |OffDay(posts, day)| < |posts|
  {
    if posts != [] {
      hide *;
      var front, post := posts[..|posts| - 1], posts[|posts| - 1];
      assert posts == front + [post];
      OffDayGathered(front, day, d);
      GatheredSnoc(front, post, day);
      GatheredSnoc(front, post, d);
      GatheredSnoc(OffDay(front, day), post, d);
    }
  }

  lemma {:induction false} UnitsPermuted(a: seq<EntryValues>, b: seq<EntryValues>, layer: Layer, direction: DebitOrCredit)
    requires multiset(a) == multiset(b)
    ensures Units(a, layer, direction) == Units(b, layer, direction) && |a| == |b|
  {
    assert |multiset(a)| == |a| && |multiset(b)| == |b|;
    if a != [] {
      var n := |a| - 1;
      var i := RemoveMatch(a, b);
      UnitsPermuted(a[..n], b[..i] + b[i + 1..], layer, direction);
      hide Units;
      assert a == a[..n] + [a[n]] && b == b[..i] + ([b[i]] + b[i + 1..]);
      UnitsConcat(a[..n], [a[n]], layer, direction);
      UnitsConcat(b[..i], [b[i]] + b[i + 1..], layer, direction);
      UnitsConcat([b[i]], b[i + 1..], layer, direction);
      UnitsConcat(b[..i], b[i + 1..], layer, direction);
    }
  }

  /** Totals up to a date depend only on which entries were posted at which date: not on how many postings, passes or
      groups brought them, nor on the order within a date or between dates. */
  lemma {:induction false} GroupingDoesNotMatter(a: seq<Posted>, b: seq<Posted>, d: Date, layer: Layer,
                                                 direction: DebitOrCredit)
    requires forall day :: multiset(Gathered(a, day)) == multiset(Gathered(b, day))
    ensures PostedUpTo(a, d, layer, direction) == PostedUpTo(b, d, layer, direction)
    ensures CountUpTo(a, d) == CountUpTo(b, d)
    decreases |a| + |b|
  {
    if a != [] || b != [] {
      var day := if a != [] then a[|a| - 1].date else b[|b| - 1].date;
      OffDayTotals(a, day, d, layer, direction);
      OffDayTotals(b, day, d, layer, direction);
      UnitsPermuted(Gathered(a, day), Gathered(b, day), layer, direction);
      forall other ensures multiset(Gathered(OffDay(a, day), other)) == multiset(Gathered(OffDay(b, day), other)) {
        OffDayGathered(a, day, other);
        OffDayGathered(b, day, other);
      }
      OffDayGathered(a, day, day);
      OffDayGathered(b, day, day);
      GroupingDoesNotMatter(OffDay(a, day), OffDay(b, day), d, layer, direction);
    }
  }

  lemma {:induction false} GroupIsWhole(groups: seq<Posted>, d: Date)
    requires forall i, j :: 0 <= i < j < |groups| ==> groups[i].date != groups[j].date
    ensures SortedParts(groups, d) == SortBySequence(Gathered(groups, d))
    ensures (forall i :: 0 <= i < |groups| ==> groups[i].date != d) ==> Gathered(groups, d) == []
  {
    if groups != [] {
      var n := |groups| - 1;
      GroupIsWhole(groups[..n], d);
      if groups[n].date == d {
        assert Gathered(groups[..n], d) == [];
        assert [] + groups[n].entries == groups[n].entries;
      }
    }
  }

  /** Two lists ordered by sequence that agree on every sequence number are equal. */
  lemma {:induction false} StableUnique(a: seq<EntryValues>, b: seq<EntryValues>)
    requires BySequence(a) && BySequence(b)
    requires forall q :: WithSequence(a, q) == WithSequence(b, q)
    ensures a == b
  {
    assert a != [] ==> WithSequence(a, a[0].sequence) != [];
    assert b != [] ==> WithSequence(b, b[0].sequence) != [];
    if a != [] {
      FirstSequence(a, b);
      FirstSequence(b, a);
      var q0 := a[0].sequence;
      assert WithSequence(a, q0) == WithSequence(b, q0);
      assert a[0] == WithSequence(a, q0)[0] == b[0];
      forall q ensures WithSequence(a[1..], q) == WithSequence(b[1..], q) {
        assert WithSequence(a, q) == WithSequence(b, q);
        WithSequenceCons(a[0], a[1..], q);
        WithSequenceCons(b[0], b[1..], q);
      }
      StableUnique(a[1..], b[1..]);
      assert a == [a[0]] + a[1..] && b == [b[0]] + b[1..];
    }
  }

  lemma WithSequenceCons(e: EntryValues, s: seq<EntryValues>, q: nat)
    ensures WithSequence([e] + s, q) == if e.sequence == q then [e] + WithSequence(s, q) else WithSequence(s, q)
    ensures (if e.sequence == q then WithSequence([e] + s, q)[1..] else WithSequence([e] + s, q)) == WithSequence(s, q)
  {
    assert ([e] + s)[1..] == s;
  }

  lemma FirstSequence(a: seq<EntryValues>, b: seq<EntryValues>)
    requires a != [] && b != [] && BySequence(b)
    requires forall q :: WithSequence(a, q) == WithSequence(b, q)
    ensures b[0].sequence <= a[0].sequence
  {
    var q := a[0].sequence;
    WithSequenceCons(a[0], a[1..], q);
    assert a == [a[0]] + a[1..];
    assert WithSequence(b, q) != [];
    hide WithSequence;
    if b[0].sequence > q {
      NoneBelow(b, q);
    }
  }

  lemma {:induction false} WithSequenceConcat(a: seq<EntryValues>, b: seq<EntryValues>, q: nat)
    ensures WithSequence(a + b, q) == WithSequence(a, q) + WithSequence(b, q)
  {
    if b == [] {
      assert a + b == a;
    } else {
      var n := |b| - 1;
      WithSequenceConcat(a, b[..n], q);
      hide WithSequence;
      assert b == b[..n] + [b[n]] && a + b == (a + b[..n]) + [b[n]];
      WithSequenceSnoc(a + b[..n], b[n], q);
      WithSequenceSnoc(b[..n], b[n], q);
    }
  }

  lemma {:induction false} PartsAgree(posts: seq<Posted>, d: Date, q: nat)
    ensures WithSequence(SortedParts(posts, d), q) == WithSequence(Gathered(posts, d), q)
  {
    if posts != [] {
      var n, post := |posts| - 1, posts[|posts| - 1];
      PartsAgree(posts[..n], d, q);
      SortSorts(post.entries);
      WithSequenceConcat(SortedParts(posts[..n], d), SortBySequence(post.entries), q);
      WithSequenceConcat(Gathered(posts[..n], d), post.entries, q);
      if post.date != d {
        assert SortedParts(posts, d) == SortedParts(posts[..n], d) && Gathered(posts, d) == Gathered(posts[..n], d);
      }
    }
  }

  /** Postings of one date come in the order of their entries' sequence numbers. */
  ghost predicate InSequenceOn(posts: seq<Posted>, d: Date) {
    forall i, j, x, y :: 0 <= i < j < |posts| && posts[i].date == d && posts[j].date == d && x in posts[i].entries && y in posts[j].entries
      ==> x.sequence <= y.sequence
  }

  lemma {:induction false} PartsMember(posts: seq<Posted>, d: Date, x: EntryValues)
    ensures x in SortedParts(posts, d) <==> exists i :: 0 <= i < |posts| && posts[i].date == d && x in posts[i].entries
  {
    if posts != [] {
      var n, post := |posts| - 1, posts[|posts| - 1];
      PartsMember(posts[..n], d, x);
      SortMembers(post.entries, x);
      assert forall i :: 0 <= i < n ==> posts[..n][i] == posts[i];
      if x in SortedParts(posts[..n], d) {
        var i :| 0 <= i < n && posts[..n][i].date == d && x in posts[..n][i].entries;
        assert posts[i].date == d;
      }
      if i :| 0 <= i < |posts| && posts[i].date == d && x in posts[i].entries {
        if i < n { assert posts[..n][i].date == d; }
      }
    }
  }

  lemma {:induction false} PartsOrdered(posts: seq<Posted>, d: Date)
    ensures BySequence(SortedParts(posts, d)) <==> InSequenceOn(posts, d)
  {
    if posts != [] {
      var n, post := |posts| - 1, posts[|posts| - 1];
      PartsOrdered(posts[..n], d);
      LastPart(posts, d);
      if post.date == d {
        SortSorts(post.entries);
        hide InSequenceOn, BySequence, SortBySequence;
        JoinOrdered(SortedParts(posts[..n], d), SortBySequence(post.entries));
      }
    }
  }

  lemma LastPart(posts: seq<Posted>, d: Date)
    requires posts != []
    ensures var n, post := |posts| - 1, posts[|posts| - 1];
            InSequenceOn(posts, d) <==>
            && InSequenceOn(posts[..n], d)
            && (post.date == d ==> forall x, y :: x in SortedParts(posts[..n], d) && y in SortBySequence(post.entries) ==> x.sequence <= y.sequence)
  {
    var n, post := |posts| - 1, posts[|posts| - 1];
    hide SortedParts, SortBySequence;
    assert forall i :: 0 <= i < n ==> posts[..n][i] == posts[i];
    forall x ensures x in SortedParts(posts[..n], d) <==> exists i :: 0 <= i < n && posts[i].date == d && x in posts[i].entries {
      PartsMember(posts[..n], d, x);
    }
    forall y ensures y in SortBySequence(post.entries) <==> y in post.entries { SortMembers(post.entries, y); }
  }

  lemma JoinOrdered(a: seq<EntryValues>, b: seq<EntryValues>)
    ensures BySequence(a + b) <==> BySequence(a) && BySequence(b) && forall x, y :: x in a && y in b ==>
              x.sequence <= y.sequence
  {
    var s := a + b;
    assert forall i :: 0 <= i < |a| ==> s[i] == a[i];
    assert forall j :: 0 <= j < |b| ==> s[|a| + j] == b[j];
  }

  ghost predicate InSequence(posts: seq<Posted>) {
    forall d :: InSequenceOn(posts, d)
  }

  /** Posting a batch as one group per date writes the same log as posting its parts one after the other exactly when,
      within each date, later parts carry no smaller sequence numbers. */
  lemma BatchEqualsSequential(log: Log, posts: seq<Posted>, groups: seq<Posted>)
    requires ByDate(log) && Groups(posts, groups)
    ensures LogAfter(log, groups) == LogAfter(log, posts) <==> InSequence(posts)
  {
    var once, apart := LogAfter(log, groups), LogAfter(log, posts);
    LogAfterByDate(log, groups);
    LogAfterByDate(log, posts);
    forall d ensures OnDay(once, d) == OnDay(apart, d) <==> InSequenceOn(posts, d) {
      BatchDay(log, posts, groups, d);
    }
    if InSequence(posts) {
      forall d ensures OnDay(once, d) == OnDay(apart, d) { assert InSequenceOn(posts, d); }
      DeterminedByDays(once, apart);
    }
    if once == apart {
      forall d ensures InSequenceOn(posts, d) { assert OnDay(once, d) == OnDay(apart, d); }
    }
  }

  lemma BatchDay(log: Log, posts: seq<Posted>, groups: seq<Posted>, d: Date)
    requires ByDate(log) && Groups(posts, groups)
    ensures OnDay(LogAfter(log, groups), d) == OnDay(LogAfter(log, posts), d) <==> InSequenceOn(posts, d)
  {
    var parts, all := SortedParts(posts, d), Gathered(posts, d);
    OnDayAfter(log, groups, d);
    OnDayAfter(log, posts, d);
    GroupIsWhole(groups, d);
    SortSorts(all);
    PartsOrdered(posts, d);
    forall q ensures WithSequence(parts, q) == WithSequence(SortBySequence(all), q) { PartsAgree(posts, d, q); }
    if BySequence(parts) { StableUnique(parts, SortBySequence(all)); }
    assert OnDay(log, d) + parts == OnDay(log, d) + SortBySequence(all) <==> parts == SortBySequence(all) by {
      assert (OnDay(log, d) + parts)[|OnDay(log, d)|..] == parts;
      assert (OnDay(log, d) + SortBySequence(all))[|OnDay(log, d)|..] == SortBySequence(all);
    }
  }

  // ---------------------------------------------------------------- the end of a date

  lemma {:induction false} LogCount(log: Log, x: Dated)
    ensures multiset(log)[x] == multiset(OnDay(log, x.date))[x.entry]
  {
    if log != [] {
      var n := |log| - 1;
      LogCount(log[..n], x);
      assert log == log[..n] + [log[n]];
    }
  }

  lemma SumRemove(log: Log, i: nat, d: Date, layer: Layer, direction: DebitOrCredit)
    requires i < |log|
    ensures var rest := log[..i] + log[i + 1..];
            && SumUpTo(log, d, layer, direction) == SumUpTo(rest, d, layer, direction) + SumUpTo([log[i]], d, layer, direction)
            && UpTo(log, d) == UpTo(rest, d) + UpTo([log[i]], d)
  {
    hide SumUpTo, UpTo;
    assert log == log[..i] + [log[i]] + log[i + 1..];
    SumConcat(log[..i] + [log[i]], log[i + 1..], d, layer, direction);
    SumConcat(log[..i], [log[i]], d, layer, direction);
    SumConcat(log[..i], log[i + 1..], d, layer, direction);
  }

  lemma {:induction false} SumPermuted(a: Log, b: Log, d: Date, layer: Layer, direction: DebitOrCredit)
    requires multiset(a) == multiset(b)
    ensures SumUpTo(a, d, layer, direction) == SumUpTo(b, d, layer, direction)
    ensures UpTo(a, d) == UpTo(b, d)
  {
    assert b != [] ==> b[0] in multiset(b);
    if a != [] {
      var n, x := |a| - 1, a[|a| - 1];
      var i := RemoveMatch(a, b);
      SumPermuted(a[..n], b[..i] + b[i + 1..], d, layer, direction);
      assert a == a[..n] + [x];
      hide SumUpTo, UpTo;
      SumRemove(b, i, d, layer, direction);
      SumConcat(a[..n], [x], d, layer, direction);
    }
  }

  /** Both ways of posting leave the same entries on every date, at most in another order. */
  lemma BatchPermutes(log: Log, posts: seq<Posted>, groups: seq<Posted>)
    requires ByDate(log) && Groups(posts, groups)
    ensures multiset(LogAfter(log, groups)) == multiset(LogAfter(log, posts))
    ensures forall d :: |OnDay(LogAfter(log, groups), d)| == |OnDay(LogAfter(log, posts), d)|
  {
    var once, apart := LogAfter(log, groups), LogAfter(log, posts);
    forall d ensures multiset(OnDay(once, d)) == multiset(OnDay(apart, d)) && |OnDay(once, d)| == |OnDay(apart, d)| {
      OnDayAfter(log, groups, d);
      OnDayAfter(log, posts, d);
      GroupIsWhole(groups, d);
      SortSorts(Gathered(posts, d));
      PartsKeep(posts, d);
      assert |multiset(SortedParts(groups, d))| == |multiset(SortedParts(posts, d))|;
    }
    forall x: Dated ensures multiset(once)[x] == multiset(apart)[x] {
      LogCount(once, x);
      LogCount(apart, x);
    }
  }

  lemma {:induction false} PartsKeep(posts: seq<Posted>, d: Date)
    ensures multiset(SortedParts(posts, d)) == multiset(Gathered(posts, d))
  {
    if posts != [] {
      PartsKeep(posts[..|posts| - 1], d);
      SortSorts(posts[|posts| - 1].entries);
    }
  }

  /** The row at the end of a date. */
  lemma EndOfDate(log: Log, d: Date)
    requires ByDate(log) && UpTo(log, d) > 0
    ensures var k := UpTo(log, d); UpTo(log, log[k - 1].date) == k && OnDate(log[..k], log[k - 1].date) == |OnDay(log, log[k - 1].date)|
  {
    var k := UpTo(log, d);
    var day := log[k - 1].date;
    UpToSplits(log, d);
    UpToSplits(log, day);
    var m := UpTo(log, day);
    assert log[k - 1].date <= day;
    assert k - 1 < m;
    assert k < |log| ==> !(log[k].date <= d);
    assert m <= k;
    assert log == log[..k] + log[k..];
    OnDateConcat(log[..k], log[k..], day);
    OnDateNone(log[k..], day);
    OnDayLength(log, day);
  }

  lemma {:induction false} OnDayLength(log: Log, d: Date)
    ensures OnDate(log, d) == |OnDay(log, d)|
  {
    if log != [] { OnDayLength(log[..|log| - 1], d); }
  }

  lemma SameLastDay(a: Log, b: Log, d: Date)
    requires ByDate(a) && ByDate(b) && (forall day :: UpTo(a, day) == UpTo(b, day)) && UpTo(a, d) > 0
    ensures a[UpTo(a, d) - 1].date == b[UpTo(b, d) - 1].date
  {
    var k := UpTo(a, d);
    EndOfDate(a, d);
    EndOfDate(b, d);
    UpToSplits(a, b[k - 1].date);
    UpToSplits(b, a[k - 1].date);
    assert a[k - 1].date <= b[k - 1].date;
    assert b[k - 1].date <= a[k - 1].date;
  }

  /** At the end of every date the two always agree: same date, version, all-time version, and every total. */
  lemma BatchAgreesAtEndOfDate(id: Balances.BalanceId, log: Log, posts: seq<Posted>, groups: seq<Posted>, d: Date,
                               layer: Layer, direction: DebitOrCredit)
    requires ByDate(log) && Groups(posts, groups)
    ensures UpTo(LogAfter(log, groups), d) == UpTo(LogAfter(log, posts), d)
    ensures var k := UpTo(LogAfter(log, posts), d);
            k > 0 ==>
              var once, apart := RowAt(id, LogAfter(log, groups), k - 1), RowAt(id, LogAfter(log, posts), k - 1);
              && once.effective == apart.effective && once.allTimeVersion == apart.allTimeVersion
              && once.values.version == apart.values.version
              && once.values.Amount(layer).Side(direction) == apart.values.Amount(layer).Side(direction)
  {
    hide LogAfter, ByDate, Groups, UpTo, OnDay, RowAt, BalanceSnapshot.Amount, BalanceAmount.Side;
    var once, apart := LogAfter(log, groups), LogAfter(log, posts);
    LogAfterByDate(log, groups);
    LogAfterByDate(log, posts);
    BatchPermutes(log, posts, groups);
    SameAtEndOfDate(id, once, apart, d, layer, direction);
  }

  lemma SameAtEndOfDate(id: Balances.BalanceId, once: Log, apart: Log, d: Date, layer: Layer, direction: DebitOrCredit)
    requires ByDate(once) && ByDate(apart) && multiset(once) == multiset(apart)
    requires forall day :: |OnDay(once, day)| == |OnDay(apart, day)|
    ensures UpTo(once, d) == UpTo(apart, d)
    ensures var k := UpTo(apart, d);
            k > 0 ==>
              && RowAt(id, once, k - 1).effective == RowAt(id, apart, k - 1).effective
              && RowAt(id, once, k - 1).allTimeVersion == RowAt(id, apart, k - 1).allTimeVersion
              && RowAt(id, once, k - 1).values.version == RowAt(id, apart, k - 1).values.version
              && RowAt(id, once, k - 1).values.Amount(layer).Side(direction) == RowAt(id, apart, k - 1).values.Amount(layer).Side(direction)
  {
    hide ByDate, OnDay, UpTo, SumUpTo, OnDate, SnapAt, Units, LastId, Entries;
    forall day ensures UpTo(once, day) == UpTo(apart, day) { SumPermuted(once, apart, day, layer, direction); }
    SumPermuted(once, apart, d, layer, direction);
    var k := UpTo(once, d);
    if k > 0 {
      SameLastDay(once, apart, d);
      EndOfDate(once, d);
      EndOfDate(apart, d);
      SumIsPrefix(once, d, layer, direction);
      SumIsPrefix(apart, d, layer, direction);
      RowMeaning(id, once, k - 1, layer);
      RowMeaning(id, apart, k - 1, layer);
    }
  }

  // ---------------------------------------------------------------- rows

  /** Entries are identified by their ids. */
  ghost predicate Identified(a: seq<EntryValues>, b: seq<EntryValues>) {
    forall x, y :: x in a && y in b && x.id == y.id ==> x == y
  }

  ghost predicate DistinctIds(es: seq<EntryValues>) {
    forall i, j :: 0 <= i < j < |es| ==> es[i].id != es[j].id
  }

  lemma PermutedIdentified(a: Log, b: Log)
    requires multiset(a) == multiset(b) && DistinctIds(Entries(b))
    ensures Identified(Entries(a), Entries(b))
  {
    forall x, y | x in Entries(a) && y in Entries(b) && x.id == y.id ensures x == y {
      var i :| 0 <= i < |a| && Entries(a)[i] == x;
      assert a[i] in multiset(b);
      var j :| 0 <= j < |b| && b[j] == a[i];
      assert Entries(b)[j] == x;
    }
  }

  ghost predicate SameRows(id: Balances.BalanceId, a: Log, b: Log) {
    |a| == |b| && forall i :: 0 <= i < |a| ==> RowAt(id, a, i) == RowAt(id, b, i)
  }

  lemma RowsTellLogs(id: Balances.BalanceId, a: Log, b: Log)
    requires Identified(Entries(a), Entries(b))
    ensures SameRows(id, a, b) <==> a == b
  {
    if SameRows(id, a, b) {
      forall i | 0 <= i < |a| ensures a[i] == b[i] {
        assert RowAt(id, a, i) == RowAt(id, b, i);
        RowMeaning(id, a, i, Settled);
        RowMeaning(id, b, i, Settled);
        assert Entries(a)[i] in Entries(a) && Entries(b)[i] in Entries(b);
      }
    }
  }

  /** Row for row, a batch equals its parts exactly when the parts come in sequence order within each date. */
  lemma BatchRowsEqual(id: Balances.BalanceId, log: Log, posts: seq<Posted>, groups: seq<Posted>)
    requires ByDate(log) && Groups(posts, groups)
    requires DistinctIds(Entries(LogAfter(log, posts)))
    ensures SameRows(id, LogAfter(log, groups), LogAfter(log, posts)) <==> InSequence(posts)
  {
    hide LogAfter, ByDate, Groups, SameRows, InSequence, Identified, DistinctIds, Entries;
    BatchPermutes(log, posts, groups);
    PermutedIdentified(LogAfter(log, groups), LogAfter(log, posts));
    BatchEqualsSequential(log, posts, groups);
    RowsTellLogs(id, LogAfter(log, groups), LogAfter(log, posts));
  }

  /** Two postings of one date where the second carries the smaller sequence number: the rows differ. */
  lemma BatchRowsCanDiffer(id: Balances.BalanceId, date: Date, first: EntryValues, second: EntryValues)
    requires first.sequence > second.sequence && first.id != second.id
    ensures var posts := [Posted(date, [first]), Posted(date, [second])];
            var groups := [Posted(date, [first, second])];
            && Groups(posts, groups)
            && !SameRows(id, LogAfter([], groups), LogAfter([], posts))
  {
    var posts, groups := [Posted(date, [first]), Posted(date, [second])], [Posted(date, [first, second])];
    assert posts[..1] == [Posted(date, [first])] && posts[..1][..0] == [] && groups[..0] == [];
    forall d ensures Gathered(groups, d) == Gathered(posts, d) {
      assert [] + [first] + [second] == [] + [first, second];
    }
    TwoSorted(first, second);
    TwoAtOnce(date, first, second);
    TwoApart(date, first, second);
    var once, apart := LogAfter([], groups), LogAfter([], posts);
    assert groups == [] + [groups[0]] && posts == [posts[0]] + [posts[1]] && [posts[0]] == [] + [posts[0]];
    LogAfterSnoc([], [], groups[0]);
    LogAfterSnoc([], [posts[0]], posts[1]);
    LogAfterSnoc([], [], posts[0]);
    RowMeaning(id, once, 0, Settled);
    RowMeaning(id, apart, 0, Settled);
    assert RowAt(id, once, 0) != RowAt(id, apart, 0);
  }

  lemma TwoSorted(first: EntryValues, second: EntryValues)
    requires first.sequence > second.sequence
    ensures SortBySequence([first, second]) == [second, first]
    ensures SortBySequence([first]) == [first] && SortBySequence([second]) == [second]
  {
    assert [first, second][..1] == [first] && [first][..0] == [] && [second][..0] == [];
    assert SortBySequence([first]) == InsertBySequence([], first);
    assert InsertBySequence([first], second) == [second] + [first];
  }

  lemma TwoAtOnce(date: Date, first: EntryValues, second: EntryValues)
    requires SortBySequence([first, second]) == [second, first]
    ensures Inserted([], date, [first, second]) == [Dated(date, second), Dated(date, first)]
  {
  }

  lemma TwoApart(date: Date, first: EntryValues, second: EntryValues)
    requires SortBySequence([first]) == [first] && SortBySequence([second]) == [second]
    ensures Inserted(Inserted([], date, [first]), date, [second]) == [Dated(date, first), Dated(date, second)]
  {
    assert Inserted([], date, [first]) == [Dated(date, first)];
    assert [Dated(date, first)][..0] == [];
    assert UpTo([Dated(date, first)], date) == 1;
  }
}
