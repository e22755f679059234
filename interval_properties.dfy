/**
 * What `filter_images_by_interval` guarantees, proved about the functions of
 * module IntervalFilter that its loop is verified against.
 */
module IntervalProperties {
  import opened Wrappers
  import opened CivilDate
  import opened ImageOrder
  import opened IntervalFilter

  /** Some pair of `q` is dated `d`. */
  predicate Occurs(q: seq<Dated>, d: int) {
    exists x :: x in q && x.day == d
  }

  /** Any two pairs of different days lie at least `k` days apart, the earlier first. */
  predicate Spaced(s: seq<Dated>, k: int) {
    forall i, j :: 0 <= i < j < |s| && s[i].day != s[j].day ==> s[i].day + k <= s[j].day
  }

  /** Days listed later are at least `k` after days listed earlier. */
  predicate DaysSpaced(days: seq<int>, k: int) {
    forall i, j :: 0 <= i < j < |days| ==> days[i] + k <= days[j]
  }

  lemma SortedTail(q: seq<Dated>)
    requires Sorted(q) && q != []
    ensures Sorted(q[1..]) && forall x :: x in q[1..] ==> q[0].day <= x.day
  {
    forall x | x in q[1..] ensures q[0].day <= x.day {
      var i :| 0 <= i < |q[1..]| && q[1..][i] == x;
      assert q[i + 1] == x;
    }
  }

  /**
   * The selected days are days of the walked pairs, never decrease, are each
   * at least `interval` after every earlier selection, and at least
   * `interval` after the `last` the walk started from.
   */
  lemma {:induction false} SelectionsShape(q: seq<Dated>, last: Option<int>, interval: int)
    requires Sorted(q)
    requires Selections(q, last, interval).Ok?
    ensures var sel := Selections(q, last, interval).value;
      && (forall s :: s in sel ==> Occurs(q, s))
      && DaysSpaced(sel, 0)
      && DaysSpaced(sel, interval)
      && (last.Some? ==> forall s :: s in sel ==> last.value + interval <= s)
    decreases |q|
  {
    if q != [] {
      SortedTail(q);
      var sel := Selections(q, last, interval).value;
      var d0 := q[0].day;
      if last.None? || d0 >= last.value + interval {
        var rest := Selections(q[1..], Some(d0), interval).value;
        SelectionsShape(q[1..], Some(d0), interval);
        assert sel == [d0] + rest;
        forall s | s in rest ensures d0 <= s && d0 + interval <= s {
          assert Occurs(q[1..], s);
        }
        forall s | s in sel ensures Occurs(q, s) {
          if s != d0 {
            assert Occurs(q[1..], s);
          }
        }
        forall i, j | 0 <= i < j < |sel| ensures sel[i] <= sel[j] && sel[i] + interval <= sel[j] {
          if i > 0 {
            assert sel[i] == rest[i - 1] && sel[j] == rest[j - 1];
          } else {
            assert sel[j] in rest;
          }
        }
      } else {
        SelectionsShape(q[1..], last, interval);
        forall s | s in sel ensures Occurs(q, s) {
          assert Occurs(q[1..], s);
        }
      }
    }
  }

  lemma {:induction false} GroupsMembers(s: seq<Dated>, days: seq<int>)
    ensures forall x :: x in Groups(s, days) <==> x in s && x.day in days
  {
    if days != [] {
      GroupsMembers(s, days[1..]);
      assert days == [days[0]] + days[1..];
    }
  }

  lemma SpacedAppend(a: seq<Dated>, b: seq<Dated>, k: int)
    requires Spaced(a, k) && Spaced(b, k)
    requires forall x, y :: x in a && y in b && x.day != y.day ==> x.day + k <= y.day
    ensures Spaced(a + b, k)
  {
    var c := a + b;
    forall i, j | 0 <= i < j < |c| && c[i].day != c[j].day ensures c[i].day + k <= c[j].day {
      if j < |a| {
        assert c[i] == a[i] && c[j] == a[j];
      } else if i >= |a| {
        assert c[i] == b[i - |a|] && c[j] == b[j - |a|];
      } else {
        assert c[i] in a && c[j] in b;
      }
    }
  }

  /** Groups taken for days listed in spaced order are themselves spaced. */
  lemma {:induction false} GroupsSpaced(s: seq<Dated>, days: seq<int>, k: int)
    requires DaysSpaced(days, k)
    ensures Spaced(Groups(s, days), k)
  {
    if days != [] {
      var g := Group(s, days[0]);
      GroupsSpaced(s, days[1..], k);
      GroupsMembers(s, days[1..]);
      forall y | y in Groups(s, days[1..]) ensures days[0] + k <= y.day {
        var j :| 0 <= j < |days[1..]| && days[1..][j] == y.day;
        assert days[j + 1] == y.day;
      }
      SpacedAppend(g, Groups(s, days[1..]), k);
    }
  }

  lemma SpacedZeroIsSorted(s: seq<Dated>)
    requires Spaced(s, 0)
    ensures Sorted(s)
  {
  }

  /** `n` copies of `s`, one after the other. */
  function Repeat(s: seq<Dated>, n: nat): (r: seq<Dated>)
    ensures |r| == |s| * n
  {
    if n == 0 then [] else s + Repeat(s, n - 1)
  }

  /** The days of `q`, in order, one per pair. */
  function Days(q: seq<Dated>): (r: seq<int>)
    ensures |r| == |q| && forall i :: 0 <= i < |q| ==> r[i] == q[i].day
  {
    if q == [] then [] else [q[0].day] + Days(q[1..])
  }

  lemma {:induction false} GroupGroup(q: seq<Dated>, e: int, d: int)
    ensures Group(Group(q, e), d) == if e == d then Group(q, d) else []
  {
    if q != [] {
      GroupGroup(q[1..], e, d);
      var h := if q[0].day == e then [q[0]] else [];
      assert Group(q, e) == h + Group(q[1..], e);
      GroupAppend(h, Group(q[1..], e), d);
      assert [q[0]][1..] == [];
      assert Group(h, d) == if q[0].day == e && e == d then [q[0]] else [];
    }
  }

  /** The pairs of day `d` in the groups for `days`: that day's group, once per listing of `d`. */
  lemma {:induction false} GroupOfGroups(q: seq<Dated>, days: seq<int>, d: int)
    ensures Group(Groups(q, days), d) == Repeat(Group(q, d), multiset(days)[d])
  {
    if days != [] {
      var n := multiset(days[1..])[d];
      var g := Group(q, d);
      GroupOfGroups(q, days[1..], d);
      assert Groups(q, days) == Group(q, days[0]) + Groups(q, days[1..]);
      GroupAppend(Group(q, days[0]), Groups(q, days[1..]), d);
      GroupGroup(q, days[0], d);
      assert Group(Groups(q, days), d) == Group(Group(q, days[0]), d) + Repeat(g, n);
      MultisetHead(days, d);
      if days[0] == d {
        assert Repeat(g, n + 1) == g + Repeat(g, n);
      } else {
        assert [] + Repeat(g, n) == Repeat(g, n);
      }
    }
  }

  lemma MultisetHead(days: seq<int>, d: int)
    requires days != []
    ensures multiset(days)[d] == (if days[0] == d then 1 else 0) + multiset(days[1..])[d]
  {
    assert days == [days[0]] + days[1..];
  }

  /** Each day appears in the days of `q` as often as `q` has pairs of that day. */
  lemma {:induction false} DaysCount(q: seq<Dated>, d: int)
    ensures multiset(Days(q))[d] == |Group(q, d)|
  {
    if q != [] {
      DaysCount(q[1..], d);
      assert Days(q) == [q[0].day] + Days(q[1..]);
    }
  }

  lemma {:induction false} GroupsCongruent(a: seq<Dated>, b: seq<Dated>, days: seq<int>)
    requires forall d :: d in days ==> Group(a, d) == Group(b, d)
    ensures Groups(a, days) == Groups(b, days)
  {
    if days != [] {
      GroupsCongruent(a, b, days[1..]);
    }
  }

  lemma {:induction false} GroupsOfTail(q: seq<Dated>, days: seq<int>)
    requires q != [] && q[0].day !in days
    ensures Groups(q, days) == Groups(q[1..], days)
  {
    if days != [] {
      GroupsOfTail(q, days[1..]);
    }
  }

  /** Taking the groups of strictly increasing days a second time changes nothing. */
  lemma GroupsIdempotent(q: seq<Dated>, days: seq<int>)
    requires DaysSpaced(days, 1)
    ensures Groups(Groups(q, days), days) == Groups(q, days)
  {
    forall d | d in days ensures Group(Groups(q, days), d) == Group(q, d) {
      GroupOfGroups(q, days, d);
      DistinctCount(days, d);
    }
    GroupsCongruent(Groups(q, days), q, days);
  }

  lemma {:induction false} DistinctCount(days: seq<int>, d: int)
    requires DaysSpaced(days, 1) && d in days
    ensures multiset(days)[d] == 1
  {
    assert days == [days[0]] + days[1..];
    assert multiset(days) == multiset{days[0]} + multiset(days[1..]);
    if days[0] == d {
      forall e | e in days[1..] ensures e != d {
        var j :| 0 <= j < |days[1..]| && days[1..][j] == e;
        assert days[j + 1] == e;
      }
    } else {
      DistinctCount(days[1..], d);
    }
  }

  /** The walk fails only by overflowing a date. */
  lemma {:induction false} SelectionsFailOnlyByOverflow(q: seq<Dated>, last: Option<int>, interval: int)
    ensures Selections(q, last, interval).Err? ==> Selections(q, last, interval).error == DateOverflow
    decreases |q|
  {
    if q != [] {
      if last.None? || q[0].day >= last.value + interval {
        SelectionsFailOnlyByOverflow(q[1..], Some(q[0].day), interval);
      } else {
        SelectionsFailOnlyByOverflow(q[1..], last, interval);
      }
    }
  }

  /**
   * With a non-negative interval, the walk cannot overflow while every day
   * shifted by the interval stays within the calendar.
   */
  lemma {:induction false} SelectionsDefined(q: seq<Dated>, last: Option<int>, interval: int)
    requires interval >= 0
    requires forall x :: x in q ==> MinOrdinal <= x.day && x.day + interval <= MaxOrdinal
    requires last.Some? ==> MinOrdinal <= last.value && last.value + interval <= MaxOrdinal
    ensures Selections(q, last, interval).Ok?
    decreases |q|
  {
    if q != [] {
      assert q[0] in q;
      if last.None? || q[0].day >= last.value + interval {
        SelectionsDefined(q[1..], Some(q[0].day), interval);
      } else {
        SelectionsDefined(q[1..], last, interval);
      }
    }
  }

  /** With a non-positive interval, a walk that starts no later than the pairs selects every pair. */
  lemma {:induction false} SelectsAll(q: seq<Dated>, last: Option<int>, interval: int)
    requires interval <= 0 && Sorted(q)
    requires last.Some? ==> forall x :: x in q ==> last.value <= x.day
    requires Selections(q, last, interval).Ok?
    ensures Selections(q, last, interval).value == Days(q)
    decreases |q|
  {
    if q != [] {
      SortedTail(q);
      assert q[0] in q;
      SelectsAll(q[1..], Some(q[0].day), interval);
    }
  }

  /**
   * With an interval of at least one day, every walked pair is either
   * selected or falls less than `interval` days after a selection (or after
   * the date the walk started from).
   */
  lemma {:induction false} SelectionsCover(q: seq<Dated>, last: Option<int>, interval: int)
    requires interval >= 1 && Sorted(q)
    requires last.Some? ==> forall x :: x in q ==> last.value <= x.day
    requires Selections(q, last, interval).Ok?
    ensures var sel := Selections(q, last, interval).value;
      forall x :: x in q ==>
        x.day in sel
        || (exists s :: s in sel && s <= x.day < s + interval)
        || (last.Some? && last.value <= x.day < last.value + interval)
    decreases |q|
  {
    if q != [] {
      SortedTail(q);
      var sel := Selections(q, last, interval).value;
      var d0 := q[0].day;
      if last.None? || d0 >= last.value + interval {
        SelectionsCover(q[1..], Some(d0), interval);
        var rest := Selections(q[1..], Some(d0), interval).value;
        assert sel == [d0] + rest;
        forall x | x in q ensures
          x.day in sel
          || (exists s :: s in sel && s <= x.day < s + interval)
          || (last.Some? && last.value <= x.day < last.value + interval)
        {
          if x == q[0] {
            assert d0 in sel;
          } else {
            assert x in q[1..];
            if x.day in rest {
              assert x.day in sel;
            } else if exists s :: s in rest && s <= x.day < s + interval {
              var s :| s in rest && s <= x.day < s + interval;
              assert s in sel;
            } else {
              assert d0 in sel && d0 <= x.day < d0 + interval;
            }
          }
        }
      } else {
        SelectionsCover(q[1..], last, interval);
        assert sel == Selections(q[1..], last, interval).value;
        forall x | x in q ensures
          x.day in sel
          || (exists s :: s in sel && s <= x.day < s + interval)
          || (last.Some? && last.value <= x.day < last.value + interval)
        {
          if x != q[0] {
            assert x in q[1..];
          } else {
            assert q[0] in q;
            assert last.value <= d0 < last.value + interval;
          }
        }
      }
    }
  }

  /** Pairs of the day just selected are skipped when the interval is at least one day. */
  lemma {:induction false} SkipSameDay(g: seq<Dated>, rest: seq<Dated>, d: int, interval: int)
    requires interval >= 1
    requires forall x :: x in g ==> x.day == d
    requires g != [] ==> Shiftable(d, interval)
    ensures Selections(g + rest, Some(d), interval) == Selections(rest, Some(d), interval)
    decreases |g|
  {
    if g != [] {
      assert (g + rest)[1..] == g[1..] + rest;
      assert g[0] in g && (g + rest)[0] == g[0];
      assert Selections(g + rest, Some(d), interval) == Selections(g[1..] + rest, Some(d), interval);
      SkipSameDay(g[1..], rest, d, interval);
    } else {
      assert g + rest == rest;
    }
  }

  /**
   * Walking the output of a walk again, from the same starting date,
   * selects the same days.
   */
  lemma {:induction false} SelectionsOfGroups(q: seq<Dated>, last: Option<int>, interval: int)
    requires interval >= 1 && Sorted(q)
    requires Selections(q, last, interval).Ok?
    ensures var sel := Selections(q, last, interval).value;
      Selections(Groups(q, sel), last, interval) == Ok(sel)
    decreases |q|
  {
    if q != [] {
      SortedTail(q);
      var sel := Selections(q, last, interval).value;
      var d0 := q[0].day;
      if last.None? || d0 >= last.value + interval {
        var rest := Selections(q[1..], Some(d0), interval).value;
        SelectionsShape(q[1..], Some(d0), interval);
        SelectionsOfGroups(q[1..], Some(d0), interval);
        assert sel == [d0] + rest;
        GroupsOfTail(q, rest);
        var g := Group(q[1..], d0);
        assert Groups(q, sel) == [q[0]] + (g + Groups(q[1..], rest));
        if q[1..] != [] {
          assert Shiftable(d0, interval);
        }
        SkipSameDay(g, Groups(q[1..], rest), d0, interval);
      } else {
        SelectionsShape(q, last, interval);
        GroupsOfTail(q, sel);
        SelectionsOfGroups(q[1..], last, interval);
      }
    }
  }

  /**
   * The filter's output consists of parsed input pairs, is in date order, and
   * with an interval of at least one day its different dates lie at least
   * the interval apart.
   */
  lemma FilterOutputOrdered(ids: seq<string>, interval: int, parsed: seq<Dated>, out: seq<Dated>)
    requires ParseImages(ids) == Ok(parsed)
    requires FilteredImages(ids, interval) == Ok(out)
    ensures forall x :: x in out ==> x in parsed && x.id in ids && WellDated(x)
    ensures Sorted(out)
    ensures interval >= 1 ==> Spaced(out, interval)
  {
    var ps := SortByDate(parsed);
    SortByDateFacts(parsed);
    var sel := Selections(ps, None, interval).value;
    assert out == Groups(ps, sel);
    GroupsMembers(ps, sel);
    forall x | x in out ensures x in parsed && x.id in ids {
      assert x in multiset(ps);
      var i :| 0 <= i < |parsed| && parsed[i] == x;
      assert Ids(parsed)[i] == x.id;
    }
    SelectionsShape(ps, None, interval);
    GroupsSpaced(ps, sel, 0);
    SpacedZeroIsSorted(out);
    if interval >= 1 {
      GroupsSpaced(ps, sel, interval);
    }
  }

  /** A walk from no date selects the first pair, so the output starts with it. */
  lemma FirstSelected(ps: seq<Dated>, interval: int)
    requires ps != [] && Selections(ps, None, interval).Ok?
    ensures var out := Groups(ps, Selections(ps, None, interval).value);
      out != [] && out[0] == ps[0]
  {
    var d := ps[0].day;
    var sel := Selections(ps, None, interval).value;
    SelectsFirst(ps, interval);
    GroupHead(ps);
    assert Groups(ps, sel) == Group(ps, d) + Groups(ps, sel[1..]);
  }

  /** A walk from no date selects the day of the first pair first. */
  lemma SelectsFirst(ps: seq<Dated>, interval: int)
    requires ps != [] && Selections(ps, None, interval).Ok?
    ensures var sel := Selections(ps, None, interval).value;
      sel != [] && sel[0] == ps[0].day
  {
    var rest := Selections(ps[1..], Some(ps[0].day), interval).value;
    assert Selections(ps, None, interval).value == [ps[0].day] + rest;
  }

  /** The filter returns no id exactly when it is given none. */
  lemma FilterEmptyExactly(ids: seq<string>, interval: int)
    ensures FilterByInterval(ids, interval) == Ok([]) <==> ids == []
  {
    if ids != [] && FilterByInterval(ids, interval).Ok? {
      var out := FilteredImages(ids, interval).value;
      FilterKeepsEarliest(ids, interval, ParseImages(ids).value, out);
      assert Ids(out)[0] == out[0].id;
    }
  }

  /**
   * The earliest date is always selected: a non-empty input gives a
   * non-empty output whose first pair is an earliest input pair.
   */
  lemma FilterKeepsEarliest(ids: seq<string>, interval: int, parsed: seq<Dated>, out: seq<Dated>)
    requires ParseImages(ids) == Ok(parsed)
    requires FilteredImages(ids, interval) == Ok(out)
    requires ids != []
    ensures out != [] && out[0] in parsed
    ensures forall x :: x in parsed ==> out[0].day <= x.day
  {
    var ps := SortByDate(parsed);
    SortByDateFacts(parsed);
    assert |Ids(parsed)| == |ids|;
    assert |ps| == |multiset(ps)| == |parsed|;
    FirstSelected(ps, interval);
    assert ps[0] in multiset(parsed);
    forall x | x in parsed ensures ps[0].day <= x.day {
      assert x in multiset(ps);
      SortedHeadIsLeast(ps, x);
    }
  }

  /** A pair is output, or it is skipped for lying within the interval after an output date. */
  lemma GroupsCover(ps: seq<Dated>, interval: int)
    requires interval >= 1 && Sorted(ps) && Selections(ps, None, interval).Ok?
    ensures var out := Groups(ps, Selections(ps, None, interval).value);
      forall x :: x in ps ==> x in out || exists y :: y in out && y.day < x.day < y.day + interval
  {
    var out := Groups(ps, Selections(ps, None, interval).value);
    forall x | x in ps ensures x in out || exists y :: y in out && y.day < x.day < y.day + interval {
      PairCovered(ps, interval, x);
    }
  }

  /** The case of one pair in GroupsCover. */
  lemma PairCovered(ps: seq<Dated>, interval: int, x: Dated)
    requires interval >= 1 && Sorted(ps) && Selections(ps, None, interval).Ok? && x in ps
    ensures var out := Groups(ps, Selections(ps, None, interval).value);
      x in out || exists y :: y in out && y.day < x.day < y.day + interval
  {
    var sel := Selections(ps, None, interval).value;
    SelectionsCover(ps, None, interval);
    if x.day in sel {
      GroupsMembers(ps, sel);
    } else {
      var s :| s in sel && s <= x.day < s + interval;
      assert s < x.day;
      SelectedDayOutput(ps, interval, s);
    }
  }

  /** Every selected day has a pair in the output. */
  lemma SelectedDayOutput(ps: seq<Dated>, interval: int, s: int)
    requires Sorted(ps) && Selections(ps, None, interval).Ok?
    requires s in Selections(ps, None, interval).value
    ensures exists y :: y in Groups(ps, Selections(ps, None, interval).value) && y.day == s
  {
    var sel := Selections(ps, None, interval).value;
    SelectionsShape(ps, None, interval);
    assert Occurs(ps, s);
    var y :| y in ps && y.day == s;
    GroupsMembers(ps, sel);
    assert y in Groups(ps, sel);
  }

  /**
   * With an interval of at least one day, every image of a date is kept or
   * every image of it is dropped.
   */
  lemma FilterKeepsWholeDates(ids: seq<string>, interval: int, parsed: seq<Dated>, out: seq<Dated>)
    requires ParseImages(ids) == Ok(parsed)
    requires FilteredImages(ids, interval) == Ok(out)
    requires interval >= 1
    ensures forall d :: Group(out, d) == Group(parsed, d) || Group(out, d) == []
  {
    var ps := SortByDate(parsed);
    SortByDateFacts(parsed);
    var sel := Selections(ps, None, interval).value;
    assert out == Groups(ps, sel);
    SelectionsShape(ps, None, interval);
    forall d ensures Group(out, d) == Group(parsed, d) || Group(out, d) == [] {
      GroupOfGroups(ps, sel, d);
      if d in sel {
        DistinctCount(sel, d);
        assert Repeat(Group(ps, d), 1) == Group(ps, d) + [];
      }
    }
  }

  /**
   * With an interval of at least one day, an image left out has a kept image
   * less than the interval before it.
   */
  lemma FilterCoversDates(ids: seq<string>, interval: int, parsed: seq<Dated>, out: seq<Dated>)
    requires ParseImages(ids) == Ok(parsed)
    requires FilteredImages(ids, interval) == Ok(out)
    requires interval >= 1
    ensures forall x :: x in parsed ==>
      x in out || exists y :: y in out && y.day < x.day < y.day + interval
  {
    var ps := SortByDate(parsed);
    SortByDateFacts(parsed);
    GroupsCover(ps, interval);
    forall x | x in parsed ensures x in out || exists y :: y in out && y.day < x.day < y.day + interval {
      assert x in multiset(ps);
    }
  }

  /**
   * With an interval of zero or less every element of the sorted list
   * selects, and each selection appends its whole date group: a date with
   * `n` images appears `n` times over.
   */
  lemma FilterRepeatsGroups(ids: seq<string>, interval: int, parsed: seq<Dated>, out: seq<Dated>)
    requires ParseImages(ids) == Ok(parsed)
    requires FilteredImages(ids, interval) == Ok(out)
    requires interval <= 0
    ensures forall d :: Group(out, d) == Repeat(Group(parsed, d), |Group(parsed, d)|)
  {
    var ps := SortByDate(parsed);
    SortByDateFacts(parsed);
    var sel := Selections(ps, None, interval).value;
    assert out == Groups(ps, sel);
    SelectsAll(ps, None, interval);
    forall d ensures Group(out, d) == Repeat(Group(parsed, d), |Group(parsed, d)|) {
      GroupOfGroups(ps, sel, d);
      DaysCount(ps, d);
    }
  }

  /**
   * The filter raises on a date only when some id has no `%Y%m%d` prefix,
   * and then on the first such id; it overflows only when every id parsed.
   */
  lemma FilterErrors(ids: seq<string>, interval: int)
    ensures var r := FilterByInterval(ids, interval);
      && (r.Err? && r.error.BadDate? <==> exists i :: 0 <= i < |ids| && !Parses(ids[i]))
      && (r.Err? && r.error.BadDate? ==>
            exists i :: 0 <= i < |ids| && r.error == BadDate(ids[i]) && !Parses(ids[i])
                        && forall j :: 0 <= j < i ==> Parses(ids[j]))
      && (r.Err? && r.error == DateOverflow ==> forall i :: 0 <= i < |ids| ==> Parses(ids[i]))
  {
    if ParseImages(ids).Ok? {
      SelectionsFailOnlyByOverflow(SortByDate(ParseImages(ids).value), None, interval);
    }
  }

  /**
   * With a non-negative interval the filter cannot overflow while every
   * image date shifted by the interval is still a date.
   */
  lemma FilterDefined(ids: seq<string>, interval: int)
    requires interval >= 0
    requires forall i :: 0 <= i < |ids| ==>
      Parses(ids[i]) && DateOf(ids[i]).value + interval <= MaxOrdinal
    ensures FilterByInterval(ids, interval).Ok?
  {
    var parsed := ParseImages(ids).value;
    var ps := SortByDate(parsed);
    SortByDateFacts(parsed);
    forall x | x in ps ensures MinOrdinal <= x.day && x.day + interval <= MaxOrdinal {
      assert x in multiset(parsed);
      var i :| 0 <= i < |parsed| && parsed[i] == x;
      assert Ids(parsed)[i] == x.id;
      assert WellDated(x);
    }
    SelectionsDefined(ps, None, interval);
  }

  /** Ids whose own prefixes gave their days parse back to the same pairs. */
  lemma {:induction false} ParseIdsOfDated(s: seq<Dated>)
    requires forall x :: x in s ==> WellDated(x)
    ensures ParseImages(Ids(s)) == Ok(s)
  {
    if s != [] {
      var ids := Ids(s);
      assert s[0] in s;
      assert ids[0] == s[0].id && DateOf(ids[0]) == Some(s[0].day);
      assert ids[1..] == Ids(s[1..]);
      ParseIdsOfDated(s[1..]);
      assert ParseImages(ids) == Ok([Dated(s[0].day, ids[0])] + s[1..]);
      assert s == [s[0]] + s[1..];
    }
  }

  /**
   * With an interval of at least one day, filtering the output again at the
   * same interval returns it unchanged.
   */
  lemma FilterIdempotent(ids: seq<string>, interval: int, out: seq<Dated>)
    requires interval >= 1
    requires FilteredImages(ids, interval) == Ok(out)
    ensures FilteredImages(Ids(out), interval) == Ok(out)
    ensures FilterByInterval(Ids(out), interval) == Ok(Ids(out))
  {
    var parsed := ParseImages(ids).value;
    FilterOutputOrdered(ids, interval, parsed, out);
    ParseIdsOfDated(out);
    SortSortedIdentity(out);
    var ps := SortByDate(parsed);
    SortByDateFacts(parsed);
    var sel := Selections(ps, None, interval).value;
    assert out == Groups(ps, sel);
    SelectionsOfGroups(ps, None, interval);
    SelectionsShape(ps, None, interval);
    GroupsIdempotent(ps, sel);
  }
}
