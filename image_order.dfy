/**
 * Image ids paired with their acquisition day, grouping by day, and the stable
 * sort by day that `sorted(..., key=lambda x: x[0])` performs.
 */
module ImageOrder {

  /** One `(date, image_id)` pair of the filter, with the date as a day number. */
  datatype Dated = Dated(day: int, id: string)

  predicate Sorted(s: seq<Dated>) {
    forall i, j :: 0 <= i < j < |s| ==> s[i].day <= s[j].day
  }

  function Ids(s: seq<Dated>): (r: seq<string>)
    ensures |r| == |s| && forall i :: 0 <= i < |s| ==> r[i] == s[i].id
  {
    if s == [] then [] else [s[0].id] + Ids(s[1..])
  }

  /** The pairs of `s` dated `d`, in their order in `s`. */
  function Group(s: seq<Dated>, d: int): (g: seq<Dated>)
    ensures |g| <= |s|
    ensures forall x :: x in g <==> x in s && x.day == d
  {
    if s == [] then [] else (if s[0].day == d then [s[0]] else []) + Group(s[1..], d)
  }

  /** Inserts `x` before the first element dated no earlier than `x`. */
  function Insert(x: Dated, s: seq<Dated>): seq<Dated> {
    if s == [] || x.day <= s[0].day then [x] + s else [s[0]] + Insert(x, s[1..])
  }

  /** Insertion sort by day; an element is placed before later-listed elements of its day. */
  function SortByDate(s: seq<Dated>): seq<Dated> {
    if s == [] then [] else Insert(s[0], SortByDate(s[1..]))
  }

  lemma {:induction false} GroupAppend(a: seq<Dated>, b: seq<Dated>, d: int)
    ensures Group(a + b, d) == Group(a, d) + Group(b, d)
  {
    if a != [] {
      assert (a + b)[1..] == a[1..] + b;
      GroupAppend(a[1..], b, d);
    } else {
      assert a + b == b;
    }
  }

  lemma {:induction false} InsertPermutes(x: Dated, s: seq<Dated>)
    ensures multiset(Insert(x, s)) == multiset(s) + multiset{x}
  {
    if s != [] && x.day > s[0].day {
      InsertPermutes(x, s[1..]);
      assert s == [s[0]] + s[1..];
    }
  }

  lemma {:induction false} InsertSorted(x: Dated, s: seq<Dated>)
    requires Sorted(s)
    ensures Sorted(Insert(x, s))
  {
    if s == [] || x.day <= s[0].day {
      ConsSorted(x, s);
    } else {
      var t := Insert(x, s[1..]);
      InsertSorted(x, s[1..]);
      InsertBound(x, s[1..], s[0].day);
      ConsSorted(s[0], t);
    }
  }

  /** A lower bound on the days of `x` and of `s` bounds the days of `Insert(x, s)`. */
  lemma {:induction false} InsertBound(x: Dated, s: seq<Dated>, lo: int)
    requires lo <= x.day && forall i :: 0 <= i < |s| ==> lo <= s[i].day
    ensures forall i :: 0 <= i < |Insert(x, s)| ==> lo <= Insert(x, s)[i].day
  {
    if s != [] && x.day > s[0].day {
      InsertBound(x, s[1..], lo);
    }
  }

  /** A pair no later than every pair of a sorted sequence can go in front of it. */
  lemma ConsSorted(h: Dated, t: seq<Dated>)
    requires Sorted(t) && forall i :: 0 <= i < |t| ==> h.day <= t[i].day
    ensures Sorted([h] + t)
  {
    forall i, j | 0 <= i < j < |[h] + t| ensures ([h] + t)[i].day <= ([h] + t)[j].day {
      assert ([h] + t)[j] == t[j - 1];
      if i > 0 {
        assert ([h] + t)[i] == t[i - 1];
      }
    }
  }

  lemma {:induction false} InsertGroup(x: Dated, s: seq<Dated>, d: int)
    ensures Group(Insert(x, s), d) == if d == x.day then [x] + Group(s, d) else Group(s, d)
  {
    if s == [] || x.day <= s[0].day {
      assert ([x] + s)[1..] == s;
    } else {
      var t := Insert(x, s[1..]);
      InsertGroup(x, s[1..], d);
      assert ([s[0]] + t)[1..] == t;
      assert Group(s, d) == (if s[0].day == d then [s[0]] else []) + Group(s[1..], d);
    }
  }

  /** The sort yields a permutation of its input, sorted by day, and keeps each day's pairs in input order. */
  lemma {:induction false} SortByDateFacts(s: seq<Dated>)
    ensures multiset(SortByDate(s)) == multiset(s)
    ensures Sorted(SortByDate(s))
    ensures forall d :: Group(SortByDate(s), d) == Group(s, d)
  {
    if s != [] {
      var t := SortByDate(s[1..]);
      SortByDateFacts(s[1..]);
      InsertPermutes(s[0], t);
      InsertSorted(s[0], t);
      assert s == [s[0]] + s[1..];
      forall d ensures Group(SortByDate(s), d) == Group(s, d) {
        SortGroupStep(s, d);
      }
    }
  }

  /** One insertion step keeps the group of day `d` as it is in the input. */
  lemma SortGroupStep(s: seq<Dated>, d: int)
    requires s != [] && Group(SortByDate(s[1..]), d) == Group(s[1..], d)
    ensures Group(SortByDate(s), d) == Group(s, d)
  {
    InsertGroup(s[0], SortByDate(s[1..]), d);
    assert s == [s[0]] + s[1..];
    GroupCons(s[0], s[1..], d);
  }

  lemma GroupCons(x: Dated, s: seq<Dated>, e: int)
    ensures Group([x] + s, e) == (if x.day == e then [x] else []) + Group(s, e)
  {
    assert ([x] + s)[1..] == s;
  }

  lemma SortedHeadIsLeast(s: seq<Dated>, x: Dated)
    requires Sorted(s) && x in s
    ensures s[0].day <= x.day
  {
    var i :| 0 <= i < |s| && s[i] == x;
    if i > 0 {
      assert s[0].day <= s[i].day;
    }
  }

  lemma HeadGroupNonEmpty(s: seq<Dated>)
    ensures s != [] ==> Group(s, s[0].day) != []
  {
    if s != [] {
      assert s[0] in Group(s, s[0].day);
    }
  }

  lemma GroupsOfTails(a: seq<Dated>, b: seq<Dated>)
    requires a != [] && b != [] && a[0] == b[0]
    requires forall d :: Group(a, d) == Group(b, d)
    ensures forall e :: Group(a[1..], e) == Group(b[1..], e)
  {
    forall e ensures Group(a[1..], e) == Group(b[1..], e) {
      assert Group(a, e) == Group(b, e);
      TailGroup(a, b, e);
    }
  }

  /** Equal groups of day `e`, and equal heads, leave equal groups of `e` in the tails. */
  lemma TailGroup(a: seq<Dated>, b: seq<Dated>, e: int)
    requires a != [] && b != [] && a[0] == b[0] && Group(a, e) == Group(b, e)
    ensures Group(a[1..], e) == Group(b[1..], e)
  {
    var p := if a[0].day == e then [a[0]] else [];
    assert a == [a[0]] + a[1..] && b == [b[0]] + b[1..];
    GroupCons(a[0], a[1..], e);
    GroupCons(b[0], b[1..], e);
    assert (p + Group(a[1..], e))[|p|..] == Group(a[1..], e);
    assert (p + Group(b[1..], e))[|p|..] == Group(b[1..], e);
  }

  /**
   * A sequence that is sorted by day and has the same pairs for every day as
   * `b` in the same order is `b` itself: any stable sort by day (Python's
   * Timsort included) gives what SortByDate gives.
   */
  lemma {:induction false} StableSortUnique(a: seq<Dated>, b: seq<Dated>)
    requires Sorted(a) && Sorted(b)
    requires forall d :: Group(a, d) == Group(b, d)
    ensures a == b
  {
    if a != [] && b != [] {
      SameHead(a, b);
      GroupsOfTails(a, b);
      assert Sorted(a[1..]) && Sorted(b[1..]);
      StableSortUnique(a[1..], b[1..]);
      assert a == [a[0]] + a[1..] && b == [b[0]] + b[1..];
    } else {
      HeadGroupNonEmpty(a);
      HeadGroupNonEmpty(b);
    }
  }

  /** Two non-empty sorted sequences with the same groups start with the same pair. */
  lemma SameHead(a: seq<Dated>, b: seq<Dated>)
    requires Sorted(a) && Sorted(b) && a != [] && b != []
    requires forall d :: Group(a, d) == Group(b, d)
    ensures a[0] == b[0]
  {
    var d, e := a[0].day, b[0].day;
    assert Group(a, d) == Group(b, d);
    assert Group(b, e) == Group(a, e);
    HeadFoundInOther(a, b, d);
    HeadFoundInOther(b, a, e);
    GroupHead(a);
    GroupHead(b);
  }

  /** The head of `a`, found in the group of its day in sorted `b`, is no earlier than `b`'s head. */
  lemma HeadFoundInOther(a: seq<Dated>, b: seq<Dated>, d: int)
    requires a != [] && Sorted(b) && d == a[0].day && Group(a, d) == Group(b, d)
    ensures b != [] && b[0].day <= d
  {
    assert a[0] in Group(a, d);
    assert a[0] in b;
    SortedHeadIsLeast(b, a[0]);
  }

  /** A non-empty sequence's head opens the group of its day. */
  lemma GroupHead(s: seq<Dated>)
    requires s != []
    ensures Group(s, s[0].day) != [] && Group(s, s[0].day)[0] == s[0]
  {
    assert s == [s[0]] + s[1..];
    GroupCons(s[0], s[1..], s[0].day);
  }

  /** Sorting a sequence that is already sorted by day changes nothing. */
  lemma SortSortedIdentity(s: seq<Dated>)
    requires Sorted(s)
    ensures SortByDate(s) == s
  {
    SortByDateFacts(s);
    StableSortUnique(SortByDate(s), s);
  }
}
