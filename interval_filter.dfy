/**
 * `filter_images_by_interval` (functions/gee_delivery.py): parse the date
 * prefix of every image id, sort stably by date, then walk the sorted list and
 * select a date when it is the first one or at least `interval_days` after the
 * last selected date, appending every id of that date each time.
 */
module IntervalFilter {
  import opened Wrappers
  import opened CivilDate
  import opened ImageOrder

  datatype FilterError =
    | BadDate(id: string)   // strptime's ValueError for this id's prefix
    | DateOverflow          // OverflowError of `last_selected_date + timedelta(days=interval_days)`

  /** `image_id.split('_')[0]`: the text before the first underscore. */
  function DatePrefix(id: string): (p: string)
    ensures '_' !in p && p <= id
    ensures |p| < |id| ==> id[|p|] == '_'
  {
    if id == [] || id[0] == '_' then [] else [id[0]] + DatePrefix(id[1..])
  }

  /**
   * `strptime(id.split('_')[0], '%Y%m%d')` as a day number, read left to
   * right: the characters before the first underscore are gathered into
   * `prefix`, which is parsed when the underscore or the end is reached.
   */
  function DateOfFrom(id: string, prefix: string): (r: Option<int>)
    ensures r.Some? ==> MinOrdinal <= r.value <= MaxOrdinal
    decreases |id|
  {
    if id == [] || id[0] == '_' then ParseYmd(prefix) else DateOfFrom(id[1..], prefix + [id[0]])
  }

  /** The day the date prefix of `id` names, if it parses. */
  function DateOf(id: string): (r: Option<int>)
    ensures r.Some? ==> MinOrdinal <= r.value <= MaxOrdinal
  {
    DateOfFrom(id, [])
  }

  lemma {:induction false} DateOfFromPrefix(id: string, prefix: string)
    ensures DateOfFrom(id, prefix) == ParseYmd(prefix + DatePrefix(id))
    decreases |id|
  {
    if id == [] || id[0] == '_' {
      assert prefix + DatePrefix(id) == prefix;
    } else {
      DateOfFromPrefix(id[1..], prefix + [id[0]]);
      assert prefix + [id[0]] + DatePrefix(id[1..]) == prefix + DatePrefix(id);
    }
  }

  /** `DateOf` parses exactly the text before the first underscore. */
  lemma DateOfIsParseOfPrefix(id: string)
    ensures DateOf(id) == ParseYmd(DatePrefix(id))
  {
    DateOfFromPrefix(id, []);
    assert [] + DatePrefix(id) == DatePrefix(id);
  }

  predicate Parses(id: string) {
    DateOf(id).Some?
  }

  /** The pair carries the day its own id's prefix parses to. */
  predicate WellDated(x: Dated) {
    DateOf(x.id) == Some(x.day)
  }

  /**
   * The list comprehension of lines 51-53, evaluated left to right: the first
   * id whose prefix is not a `%Y%m%d` date raises.
   */
  function ParseImages(ids: seq<string>): (r: Result<seq<Dated>, FilterError>)
    ensures ParsedAs(ids, r)
  {
    if ids == [] then Ok([])
    else if !Parses(ids[0]) then ParsedAsBadHead(ids); Err(BadDate(ids[0]))
    else
      var tail := ParseImages(ids[1..]);
      if tail.Err? then ParsedAsBadTail(ids, tail); tail
      else
        ParsedAsCons(ids, tail.value);
        Ok([Dated(DateOf(ids[0]).value, ids[0])] + tail.value)
  }

  /**
   * `r` is what parsing `ids` gives: a result for every id when all parse,
   * each paired with its date, and otherwise the error of the first id that
   * does not parse.
   */
  predicate ParsedAs(ids: seq<string>, r: Result<seq<Dated>, FilterError>) {
    && (r.Ok? <==> forall i :: 0 <= i < |ids| ==> Parses(ids[i]))
    && (r.Ok? ==> Ids(r.value) == ids && forall x :: x in r.value ==> WellDated(x))
    && (r.Err? ==> exists i :: 0 <= i < |ids| && !Parses(ids[i]) && r.error == BadDate(ids[i])
                                && forall j :: 0 <= j < i ==> Parses(ids[j]))
  }

  lemma ParsedAsBadHead(ids: seq<string>)
    requires ids != [] && !Parses(ids[0])
    ensures ParsedAs(ids, Err(BadDate(ids[0])))
  {
  }

  lemma ParsedAsBadTail(ids: seq<string>, tail: Result<seq<Dated>, FilterError>)
    requires ids != [] && Parses(ids[0]) && tail.Err? && ParsedAs(ids[1..], tail)
    ensures ParsedAs(ids, tail)
  {
    var i :| 0 <= i < |ids[1..]| && !Parses(ids[1..][i]) && tail.error == BadDate(ids[1..][i])
              && forall j :: 0 <= j < i ==> Parses(ids[1..][j]);
    assert ids[i + 1] == ids[1..][i];
    forall j | 0 <= j < i + 1 ensures Parses(ids[j]) {
      if j > 0 {
        assert ids[j] == ids[1..][j - 1];
      }
    }
  }

  lemma ParsedAsCons(ids: seq<string>, tail: seq<Dated>)
    requires ids != [] && Parses(ids[0]) && ParsedAs(ids[1..], Ok(tail))
    ensures ParsedAs(ids, Ok([Dated(DateOf(ids[0]).value, ids[0])] + tail))
  {
    var r := [Dated(DateOf(ids[0]).value, ids[0])] + tail;
    forall i | 1 <= i < |ids| ensures Parses(ids[i]) {
      assert ids[i] == ids[1..][i - 1];
    }
    assert WellDated(r[0]);
    assert forall x :: x in r ==> x == r[0] || x in tail;
    assert forall i :: 1 <= i < |ids| ==> Ids(r)[i] == Ids(tail)[i - 1];
  }

  /** `last + timedelta(days=interval)` is a representable date. */
  predicate Shiftable(last: int, interval: int) {
    MinOrdinal <= last + interval <= MaxOrdinal
  }

  /**
   * The days at which the loop of lines 60-69 selects, walking `q` with
   * `last` as `last_selected_date`. A day is listed once per selecting
   * element, so with `interval <= 0` it can be listed several times.
   */
  function Selections(q: seq<Dated>, last: Option<int>, interval: int): Result<seq<int>, FilterError>
    decreases |q|
  {
    if q == [] then Ok([])
    else if last.Some? && !Shiftable(last.value, interval) then Err(DateOverflow)
    else if last.None? || q[0].day >= last.value + interval then
      match Selections(q[1..], Some(q[0].day), interval)
      case Err(e) => Err(e)
      case Ok(sel) => Ok([q[0].day] + sel)
    else Selections(q[1..], last, interval)
  }

  /** The concatenated groups of `s` for the listed days, one group per listing. */
  function Groups(s: seq<Dated>, days: seq<int>): seq<Dated> {
    if days == [] then [] else Group(s, days[0]) + Groups(s, days[1..])
  }

  /** The filter's output, with each id paired with its date. */
  function FilteredImages(ids: seq<string>, interval: int): Result<seq<Dated>, FilterError> {
    match ParseImages(ids)
    case Err(e) => Err(e)
    case Ok(parsed) =>
      var ps := SortByDate(parsed);
      match Selections(ps, None, interval)
      case Err(e) => Err(e)
      case Ok(sel) => Ok(Groups(ps, sel))
  }

  /** `filter_images_by_interval(image_ids, interval_days)`. */
  function FilterByInterval(ids: seq<string>, interval: int): Result<seq<string>, FilterError> {
    match FilteredImages(ids, interval)
    case Err(e) => Err(e)
    case Ok(out) => Ok(Ids(out))
  }

  /** Prefixes the selections made before the rest of the walk. */
  function After(pre: seq<int>, r: Result<seq<int>, FilterError>): Result<seq<int>, FilterError> {
    match r
    case Err(e) => Err(e)
    case Ok(sel) => Ok(pre + sel)
  }

  lemma {:induction false} IdsAppend(a: seq<Dated>, b: seq<Dated>)
    ensures Ids(a + b) == Ids(a) + Ids(b)
  {
  }

  lemma {:induction false} GroupsSnoc(s: seq<Dated>, days: seq<int>, d: int)
    ensures Groups(s, days + [d]) == Groups(s, days) + Group(s, d)
  {
    if days == [] {
      assert Groups(s, [d]) == Group(s, d) + Groups(s, []);
    } else {
      assert (days + [d])[1..] == days[1..] + [d];
      GroupsSnoc(s, days[1..], d);
    }
  }

  lemma AfterNothing(r: Result<seq<int>, FilterError>)
    ensures After([], r) == r
  {
    if r.Ok? {
      assert [] + r.value == r.value;
    }
  }

  /** One iteration of the loop in terms of Selections. */
  lemma WalkStep(q: seq<Dated>, i: nat, last: Option<int>, interval: int, pre: seq<int>)
    requires i < |q|
    ensures last.Some? && !Shiftable(last.value, interval) ==>
      Selections(q[i..], last, interval) == Err(DateOverflow)
    ensures !(last.Some? && !Shiftable(last.value, interval)) && (last.None? || q[i].day >= last.value + interval) ==>
      After(pre, Selections(q[i..], last, interval))
      == After(pre + [q[i].day], Selections(q[i + 1..], Some(q[i].day), interval))
    ensures !(last.Some? && !Shiftable(last.value, interval)) && !(last.None? || q[i].day >= last.value + interval) ==>
      After(pre, Selections(q[i..], last, interval)) == After(pre, Selections(q[i + 1..], last, interval))
  {
    assert q[i..][1..] == q[i + 1..];
    var rest := Selections(q[i + 1..], Some(q[i].day), interval);
    if rest.Ok? {
      assert pre + ([q[i].day] + rest.value) == (pre + [q[i].day]) + rest.value;
    }
  }

  /** The loop of lines 56-71 over the stably sorted pairs. */
  method FilterImagesByInterval(imageIds: seq<string>, intervalDays: int)
    returns (r: Result<seq<string>, FilterError>)
    ensures r == FilterByInterval(imageIds, intervalDays)
  {
    var parsed := ParseImages(imageIds);
    if parsed.Err? {
      assert FilteredImages(imageIds, intervalDays) == Err(parsed.error);
      return Err(parsed.error);
    }
    var datesImages := SortByDate(parsed.value);
    var filteredImageIds: seq<string> := [];
    var lastSelectedDate: Option<int> := None;
    ghost var selected: seq<int> := [];
    AfterNothing(Selections(datesImages, None, intervalDays));
    assert datesImages[0..] == datesImages;
    for i := 0 to |datesImages|
      invariant filteredImageIds == Ids(Groups(datesImages, selected))
      invariant After(selected, Selections(datesImages[i..], lastSelectedDate, intervalDays))
                == Selections(datesImages, None, intervalDays)
    {
      var date := datesImages[i].day;
      WalkStep(datesImages, i, lastSelectedDate, intervalDays, selected);
      if lastSelectedDate.Some? && !Shiftable(lastSelectedDate.value, intervalDays) {
        assert Selections(datesImages, None, intervalDays) == Err(DateOverflow);
        assert FilteredImages(imageIds, intervalDays) == Err(DateOverflow);
        return Err(DateOverflow);
      }
      if lastSelectedDate.None? || date >= lastSelectedDate.value + intervalDays {
        var group := Ids(Group(datesImages, date));
        GroupsSnoc(datesImages, selected, date);
        IdsAppend(Groups(datesImages, selected), Group(datesImages, date));
        filteredImageIds := filteredImageIds + group;
        lastSelectedDate := Some(date);
        selected := selected + [date];
      }
    }
    assert datesImages[|datesImages|..] == [];
    assert selected + [] == selected;
    assert Selections(datesImages, None, intervalDays) == Ok(selected);
    assert FilteredImages(imageIds, intervalDays) == Ok(Groups(datesImages, selected));
    return Ok(filteredImageIds);
  }
}
