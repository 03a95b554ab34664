/** Sorts that satisfy what the event cleanup and the signal grouping ask of theirs. */
module Sorts {
  import Cleaner
  import Grouping

  function Inserted<T>(atMost: (T, T) -> bool, x: T, s: seq<T>): seq<T>
  {
    if s == [] || atMost(x, s[0]) then [x] + s else [s[0]] + Inserted(atMost, x, s[1..])
  }

  function Sorted<T>(atMost: (T, T) -> bool, s: seq<T>): seq<T>
  {
    if s == [] then [] else Inserted(atMost, s[0], Sorted(atMost, s[1..]))
  }

  ghost predicate Orders<T(!new)>(atMost: (T, T) -> bool)
  {
    && (forall a, b :: atMost(a, b) || atMost(b, a))
    && (forall a, b, c :: atMost(a, b) && atMost(b, c) ==> atMost(a, c))
  }

  ghost predicate InOrder<T>(atMost: (T, T) -> bool, s: seq<T>)
  {
    forall i, j | 0 <= i < j < |s| :: atMost(s[i], s[j])
  }

  lemma {:induction false} InsertedIsInOrder<T(!new)>(atMost: (T, T) -> bool, x: T, s: seq<T>)
    requires Orders(atMost) && InOrder(atMost, s)
    ensures InOrder(atMost, Inserted(atMost, x, s))
    ensures multiset(Inserted(atMost, x, s)) == multiset(s) + multiset{x}
  {
    if s != [] {
      assert s == [s[0]] + s[1..];
      if !atMost(x, s[0]) {
        InsertedIsInOrder(atMost, x, s[1..]);
        var rest := Inserted(atMost, x, s[1..]);
        forall y | y in rest ensures atMost(s[0], y) {
          assert y in multiset(s[1..]) + multiset{x};
        }
      }
    }
  }

  lemma {:induction false} SortedIsInOrder<T(!new)>(atMost: (T, T) -> bool, s: seq<T>)
    requires Orders(atMost)
    ensures InOrder(atMost, Sorted(atMost, s)) && multiset(Sorted(atMost, s)) == multiset(s)
  {
    if s != [] {
      assert s == [s[0]] + s[1..];
      SortedIsInOrder(atMost, s[1..]);
      InsertedIsInOrder(atMost, s[0], Sorted(atMost, s[1..]));
    }
  }

  function ByTime(): (Cleaner.Record, Cleaner.Record) -> bool
  {
    (a: Cleaner.Record, b: Cleaner.Record) => a.eventTime <= b.eventTime
  }

  lemma SortsRecords()
    ensures Cleaner.LawfulSort(s => Sorted(ByTime(), s))
  {
    forall s: seq<Cleaner.Record>
      ensures multiset(Sorted(ByTime(), s)) == multiset(s) && Cleaner.Ordered(Sorted(ByTime(), s))
    {
      SortedIsInOrder(ByTime(), s);
      assert InOrder(ByTime(), Sorted(ByTime(), s));
    }
  }

  function NotAfter(): (string, string) -> bool
  {
    (a: string, b: string) => !Grouping.Less(b, a)
  }

  lemma {:induction false} OneWay(a: string, b: string)
    ensures !(Grouping.Less(a, b) && Grouping.Less(b, a))
    decreases |a|
  {
    if a != "" && b != "" { OneWay(a[1..], b[1..]); }
  }

  lemma {:induction false} Between(a: string, b: string, c: string)
    requires Grouping.Less(c, a)
    ensures Grouping.Less(b, a) || Grouping.Less(c, b)
    decreases |a|
  {
    if a != "" && b != "" && c != "" && a[0] == b[0] == c[0] { Between(a[1..], b[1..], c[1..]); }
  }

  lemma SortsKeys()
    ensures Grouping.LawfulSort(s => Sorted(NotAfter(), s))
  {
    forall a, b ensures NotAfter()(a, b) || NotAfter()(b, a) { OneWay(a, b); }
    forall a, b, c | NotAfter()(a, b) && NotAfter()(b, c) ensures NotAfter()(a, c) {
      if Grouping.Less(c, a) { Between(a, b, c); }
    }
    forall s: seq<string>
      ensures multiset(Sorted(NotAfter(), s)) == multiset(s) && Grouping.Sorted(Sorted(NotAfter(), s))
    {
      SortedIsInOrder(NotAfter(), s);
      assert InOrder(NotAfter(), Sorted(NotAfter(), s));
    }
  }
}
