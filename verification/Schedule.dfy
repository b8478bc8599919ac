/** Weekly business hours: which weeks are accepted, and when the office opens next. */
module Schedule {
  import opened Sorting
  import opened Texts
  import opened Wrappers

  /** When the office is open, between two times of one day. */
  datatype Range = Range(from: string, to: string)

  /** The seven days of a week, Monday first; a day with no range is closed. */
  type Week = seq<seq<Range>>

  predicate IsTime(t: string) {
    && |t| == 5 && IsDigit(t[0]) && IsDigit(t[1]) && t[2] == ':' && '0' <= t[3] <= '5' && IsDigit(t[4])
    && (t[0] == '0' || t[0] == '1' || (t[0] == '2' && t[1] <= '3'))
  }

  function Digit(c: char): int { c as int - '0' as int }

  /** Minutes of the day; only ever asked of a valid time. */
  function ToMinutes(t: string): int {
    if |t| == 5 then (Digit(t[0]) * 10 + Digit(t[1])) * 60 + Digit(t[3]) * 10 + Digit(t[4]) else 0
  }

  function TwoDigits(n: nat): string
    requires n < 100
  {
    [(n / 10 + 48) as char, (n % 10 + 48) as char]
  }

  /** The time of a clock with 24 hours of 60 minutes. */
  function ClockText(h: nat, m: nat): string
    requires h < 24 && m < 60
  {
    TwoDigits(h) + ":" + TwoDigits(m)
  }

  /** The times accepted are exactly those a clock shows, and each is that many minutes into the day. */
  lemma ClockIsATime(h: nat, m: nat)
    requires h < 24 && m < 60
    ensures IsTime(ClockText(h, m)) && ToMinutes(ClockText(h, m)) == h * 60 + m
  {
  }

  lemma TimeIsAClock(t: string) returns (h: nat, m: nat)
    requires IsTime(t)
    ensures h < 24 && m < 60 && t == ClockText(h, m)
  {
    h, m := Digit(t[0]) * 10 + Digit(t[1]), Digit(t[3]) * 10 + Digit(t[4]);
  }

  predicate ValidRange(r: Range) {
    IsTime(r.from) && IsTime(r.to) && ToMinutes(r.from) < ToMinutes(r.to)
  }

  predicate AllValid(ranges: seq<Range>) { forall r | r in ranges :: ValidRange(r) }

  // ─── Accepting a week ────────────────────────────────────

  /** A day as it arrives: absent, not a list, or a list whose items may lack a text. */
  datatype RawDay = Absent | NotAList | Listed(items: seq<RawRange>)
  datatype RawRange = RawRange(from: Option<string>, to: Option<string>)

  datatype Problem = NotAnArray | InvalidTime | FromNotBefore | Overlapping

  datatype Result<T> = Ok(value: T) | Err(day: nat, problem: Problem)

  /** The first thing wrong with the items of a day, in their order. */
  function ItemProblem(items: seq<RawRange>): (p: Option<Problem>)
    ensures p.None? <==> forall i | i in items :: i.from.Some? && i.to.Some? && ValidRange(Range(i.from.value, i.to.value))
  {
    if items == [] then None else
      var r := items[0];
      if r.from.None? || r.to.None? || !IsTime(r.from.value) || !IsTime(r.to.value) then Some(InvalidTime)
      else if ToMinutes(r.from.value) >= ToMinutes(r.to.value) then Some(FromNotBefore)
      else ItemProblem(items[1..])
  }

  function RangesOf(items: seq<RawRange>): (r: seq<Range>)
    requires ItemProblem(items).None?
    ensures |r| == |items| && AllValid(r)
    ensures forall i | 0 <= i < |items| :: r[i] == Range(items[i].from.value, items[i].to.value)
  {
    seq(|items|, i requires 0 <= i < |items| => Range(items[i].from.value, items[i].to.value))
  }

  predicate Before(a: Range, b: Range) { ToMinutes(a.from) <= ToMinutes(b.from) }

  function Start(r: Range): int { ToMinutes(r.from) }

  predicate Sorted(ranges: seq<Range>) { Ascending(ranges, Start) }

  /** The check the code makes: each range starts no earlier than the one before it ends. */
  predicate NeighboursApart(ranges: seq<Range>) {
    forall i | 1 <= i < |ranges| :: ToMinutes(ranges[i - 1].to) <= ToMinutes(ranges[i].from)
  }

  predicate Disjoint(a: Range, b: Range) {
    ToMinutes(a.to) <= ToMinutes(b.from) || ToMinutes(b.to) <= ToMinutes(a.from)
  }

  predicate PairwiseDisjoint(ranges: seq<Range>) {
    forall i, j | 0 <= i < j < |ranges| :: Disjoint(ranges[i], ranges[j])
  }

  /** In order, and each over before the next one starts. */
  predicate Tidy(ranges: seq<Range>) {
    AllValid(ranges) && forall i, j | 0 <= i < j < |ranges| :: ToMinutes(ranges[i].to) <= ToMinutes(ranges[j].from)
  }

  function ValidateDay(raw: RawDay): Result<seq<Range>> {
    match raw
    case Absent => Ok([])
    case NotAList => Err(0, NotAnArray)
    case Listed(items) =>
      var problem := ItemProblem(items);
      if problem.Some? then Err(0, problem.value) else
        var sorted := Sort(RangesOf(items), Start);
        if NeighboursApart(sorted) then Ok(sorted) else Err(0, Overlapping)
  }

  /** The days from the given one on; the first problem wins. */
  function ValidateFrom(raw: seq<RawDay>, day: nat): Result<Week>
    requires day <= |raw|
    decreases |raw| - day
  {
    if day == |raw| then Ok([]) else
      match ValidateDay(raw[day])
      case Err(_, p) => Err(day, p)
      case Ok(ranges) =>
        match ValidateFrom(raw, day + 1)
        case Err(d, p) => Err(d, p)
        case Ok(rest) => Ok([ranges] + rest)
  }

  function ValidateSchedule(raw: seq<RawDay>): Result<Week> {
    ValidateFrom(raw, 0)
  }

  lemma SortedPairsAreTidy(ranges: seq<Range>, i: nat, j: nat)
    requires AllValid(ranges) && NeighboursApart(ranges) && i < j < |ranges|
    ensures ToMinutes(ranges[i].to) <= ToMinutes(ranges[j].from)
    decreases j - i
  {
    if i + 1 < j {
      SortedPairsAreTidy(ranges, i, j - 1);
      assert ranges[j - 1] in ranges;
      assert ToMinutes(ranges[j - 1].to) <= ToMinutes(ranges[j].from);
    }
  }

  /** Once sorted, looking at neighbours is looking at every pair. */
  lemma NeighboursDecide(ranges: seq<Range>)
    requires AllValid(ranges) && Sorted(ranges)
    ensures NeighboursApart(ranges) <==> PairwiseDisjoint(ranges)
    ensures NeighboursApart(ranges) <==> Tidy(ranges)
  {
    if NeighboursApart(ranges) {
      forall i, j | 0 <= i < j < |ranges|
        ensures ToMinutes(ranges[i].to) <= ToMinutes(ranges[j].from)
      {
        SortedPairsAreTidy(ranges, i, j);
      }
    }
    if PairwiseDisjoint(ranges) {
      forall i | 1 <= i < |ranges|
        ensures ToMinutes(ranges[i - 1].to) <= ToMinutes(ranges[i].from)
      {
        assert Disjoint(ranges[i - 1], ranges[i]) && Before(ranges[i - 1], ranges[i]);
        assert ranges[i] in ranges;
      }
    }
  }

  /** No two ranges of a day overlap, whatever the order they were written in. */
  predicate NoOverlap(ranges: seq<Range>) {
    && (forall a, b | a in ranges && b in ranges && a != b :: Disjoint(a, b))
    && (forall r | r in ranges :: multiset(ranges)[r] == 1)
  }

  lemma ApartHasNoOverlap(ranges: seq<Range>)
    requires AllValid(ranges) && PairwiseDisjoint(ranges)
    ensures NoOverlap(ranges)
  {
    forall a, b | a in ranges && b in ranges && a != b
      ensures Disjoint(a, b)
    {
      var i :| 0 <= i < |ranges| && ranges[i] == a;
      var j :| 0 <= j < |ranges| && ranges[j] == b;
    }
    forall r | r in ranges
      ensures multiset(ranges)[r] == 1
    {
      OnceIfApart(ranges, r);
    }
  }

  lemma NoOverlapIsApart(ranges: seq<Range>)
    requires NoOverlap(ranges)
    ensures PairwiseDisjoint(ranges)
  {
    forall i, j | 0 <= i < j < |ranges|
      ensures Disjoint(ranges[i], ranges[j])
    {
      if ranges[i] == ranges[j] {
        TwiceCounts(ranges, i, j);
        assert false;
      }
    }
  }

  lemma DisjointIsOrderFree(ranges: seq<Range>)
    requires AllValid(ranges)
    ensures PairwiseDisjoint(ranges) <==> NoOverlap(ranges)
  {
    if PairwiseDisjoint(ranges) {
      ApartHasNoOverlap(ranges);
    } else if NoOverlap(ranges) {
      NoOverlapIsApart(ranges);
    }
  }

  lemma {:induction false} OnceIfApart(ranges: seq<Range>, r: Range)
    requires AllValid(ranges) && PairwiseDisjoint(ranges) && r in ranges
    ensures multiset(ranges)[r] == 1
  {
    var last := |ranges| - 1;
    assert ranges == ranges[..last] + [ranges[last]];
    if ranges[last] != r {
      OnceIfApart(ranges[..last], r);
    } else {
      forall i | 0 <= i < last
        ensures ranges[i] != r
      {
        assert Disjoint(ranges[i], ranges[last]) && ranges[i] in ranges;
      }
    }
  }

  lemma SameRangesSameOverlap(a: seq<Range>, b: seq<Range>)
    requires multiset(a) == multiset(b)
    ensures NoOverlap(a) <==> NoOverlap(b)
    ensures AllValid(a) <==> AllValid(b)
  {
    forall r
      ensures r in a <==> r in b
    {
      assert r in a <==> r in multiset(a);
      assert r in b <==> r in multiset(b);
    }
  }

  lemma SortDecides(ranges: seq<Range>)
    requires AllValid(ranges)
    ensures NeighboursApart(Sort(ranges, Start)) <==> NoOverlap(ranges)
    ensures NeighboursApart(Sort(ranges, Start)) <==> Tidy(Sort(ranges, Start))
    ensures multiset(Sort(ranges, Start)) == multiset(ranges)
  {
    SortSorts(ranges, Start);
    SameRangesSameOverlap(Sort(ranges, Start), ranges);
    NeighboursDecide(Sort(ranges, Start));
    DisjointIsOrderFree(Sort(ranges, Start));
  }

  lemma SortedDay(items: seq<RawRange>)
    requires ItemProblem(items).None?
    ensures var sorted := Sort(RangesOf(items), Start);
            ValidateDay(Listed(items)) == if NeighboursApart(sorted) then Ok(sorted) else Err(0, Overlapping)
  {
  }

  /** A day is accepted exactly when its times are valid and no two ranges overlap; what is kept is the same ranges, tidy. */
  lemma DayIsAcceptedIff(items: seq<RawRange>)
    ensures ValidateDay(Listed(items)).Ok? <==> ItemProblem(items).None? && NoOverlap(RangesOf(items))
    ensures ValidateDay(Listed(items)).Ok? ==>
              Tidy(ValidateDay(Listed(items)).value) && multiset(ValidateDay(Listed(items)).value) == multiset(RangesOf(items))
  {
    if ItemProblem(items).None? {
      SortDecides(RangesOf(items));
      SortedDay(items);
    }
  }

  // ─── Accepting it again ──────────────────────────────────

  function AsItem(r: Range): RawRange { RawRange(Some(r.from), Some(r.to)) }

  function AsRaw(ranges: seq<Range>): (d: RawDay)
    ensures d.Listed? && |d.items| == |ranges|
    ensures forall i | 0 <= i < |ranges| :: d.items[i] == AsItem(ranges[i])
  {
    Listed(seq(|ranges|, i requires 0 <= i < |ranges| => AsItem(ranges[i])))
  }

  lemma TidyIsSorted(ranges: seq<Range>)
    requires Tidy(ranges)
    ensures Sorted(ranges)
  {
    forall i, j | 0 <= i < j < |ranges|
      ensures Before(ranges[i], ranges[j])
    {
      assert ranges[i] in ranges && ValidRange(ranges[i]);
    }
  }

  lemma ItemsReadBack(ranges: seq<Range>)
    requires AllValid(ranges)
    ensures ItemProblem(AsRaw(ranges).items).None? && RangesOf(AsRaw(ranges).items) == ranges
  {
    var items := AsRaw(ranges).items;
    forall i | i in items
      ensures i.from.Some? && i.to.Some? && ValidRange(Range(i.from.value, i.to.value))
    {
      var k :| 0 <= k < |ranges| && items[k] == i;
      assert ranges[k] in ranges;
    }
    assert RangesOf(items) == ranges;
  }

  lemma AcceptedAs(items: seq<RawRange>, ranges: seq<Range>)
    requires ItemProblem(items).None? && Sort(RangesOf(items), Start) == ranges && NeighboursApart(ranges)
    ensures ValidateDay(Listed(items)) == Ok(ranges)
  {
  }

  lemma TidyDayIsAcceptedAsItIs(ranges: seq<Range>)
    requires Tidy(ranges)
    ensures ValidateDay(AsRaw(ranges)) == Ok(ranges)
  {
    ItemsReadBack(ranges);
    var items := AsRaw(ranges).items;
    assert Sort(RangesOf(items), Start) == ranges by {
      TidyIsSorted(ranges);
      SortKeepsSorted(ranges, Start);
    }
    assert NeighboursApart(ranges) by {
      TidyIsSorted(ranges);
      NeighboursDecide(ranges);
    }
    AcceptedAs(items, ranges);
  }

  predicate TidyWeek(w: Week) { forall d | 0 <= d < |w| :: Tidy(w[d]) }

  function AsRawWeek(w: Week): (raw: seq<RawDay>)
    ensures |raw| == |w| && forall d | 0 <= d < |w| :: raw[d] == AsRaw(w[d])
  {
    seq(|w|, d requires 0 <= d < |w| => AsRaw(w[d]))
  }

  ghost predicate DayByDay(raw: seq<RawDay>, w: Week) {
    |raw| == |w| && forall d | 0 <= d < |w| :: ValidateDay(raw[d]) == Ok(w[d])
  }

  lemma OneMoreDay(raw: seq<RawDay>, day: nat, first: seq<Range>, rest: Week)
    requires day < |raw| && ValidateDay(raw[day]) == Ok(first) && ValidateFrom(raw, day + 1) == Ok(rest)
    ensures ValidateFrom(raw, day) == Ok([first] + rest)
  {
  }

  lemma DayAndRest(w: Week, day: nat)
    requires day < |w|
    ensures w[day..] == [w[day]] + w[day + 1..]
  {
  }

  lemma {:induction false} DaysMakeTheWeek(raw: seq<RawDay>, w: Week, day: nat)
    requires DayByDay(raw, w) && day <= |w|
    ensures ValidateFrom(raw, day) == Ok(w[day..])
    decreases |w| - day
  {
    if day == |w| {
      assert w[day..] == [];
    } else {
      DaysMakeTheWeek(raw, w, day + 1);
      OneMoreDay(raw, day, w[day], w[day + 1..]);
      DayAndRest(w, day);
    }
  }

  lemma TidyWeekIsAcceptedAsItIs(w: Week)
    requires TidyWeek(w)
    ensures ValidateSchedule(AsRawWeek(w)) == Ok(w)
  {
    forall d | 0 <= d < |w|
      ensures ValidateDay(AsRawWeek(w)[d]) == Ok(w[d])
    {
      TidyDayIsAcceptedAsItIs(w[d]);
    }
    DaysMakeTheWeek(AsRawWeek(w), w, 0);
    assert w[0..] == w;
  }

  lemma {:induction false} AcceptedFromIsTidy(raw: seq<RawDay>, day: nat)
    requires day <= |raw| && ValidateFrom(raw, day).Ok?
    ensures TidyWeek(ValidateFrom(raw, day).value) && |ValidateFrom(raw, day).value| == |raw| - day
    decreases |raw| - day
  {
    if day < |raw| {
      AcceptedFromIsTidy(raw, day + 1);
      if raw[day].Listed? {
        DayIsAcceptedIff(raw[day].items);
      }
    }
  }

  /** What is accepted is a whole tidy week, and accepting it again gives the same week. */
  lemma ValidateIsIdempotent(raw: seq<RawDay>)
    requires ValidateSchedule(raw).Ok?
    ensures var w := ValidateSchedule(raw).value;
            TidyWeek(w) && |w| == |raw| && ValidateSchedule(AsRawWeek(w)) == Ok(w)
  {
    AcceptedFromIsTidy(raw, 0);
    var w := ValidateSchedule(raw).value;
    TidyWeekIsAcceptedAsItIs(w);
  }

  // ─── The loops ───────────────────────────────────────────

  lemma {:induction false} ProblemAt(items: seq<RawRange>, i: nat)
    requires i < |items| && ItemProblem(items[..i]).None? && ItemProblem([items[i]]).Some?
    ensures ItemProblem(items) == ItemProblem([items[i]])
  {
    if i > 0 {
      assert items[..i][1..] == items[1..][..i - 1] && items[..i][0] == items[0];
      ProblemAt(items[1..], i - 1);
    } else {
      assert [items[0]][1..] == [];
    }
  }

  method ParseItems(items: seq<RawRange>) returns (result: Result<seq<Range>>)
    ensures result == if ItemProblem(items).Some? then Err(0, ItemProblem(items).value) else Ok(RangesOf(items))
  {
    var parsed: seq<Range> := [];
    for i := 0 to |items|
      invariant ItemProblem(items[..i]).None? && parsed == RangesOf(items[..i])
    {
      var problem := ItemProblem([items[i]]);
      if problem.Some? {
        ProblemAt(items, i);
        return Err(0, problem.value);
      }
      assert items[..i + 1] == items[..i] + [items[i]];
      assert items[i] in [items[i]];
      parsed := parsed + [Range(items[i].from.value, items[i].to.value)];
    }
    assert items[..|items|] == items;
    result := Ok(parsed);
  }

  method AreApart(ranges: seq<Range>) returns (apart: bool)
    ensures apart == NeighboursApart(ranges)
  {
    var i := 1;
    while i < |ranges|
      invariant 1 <= i && forall k | 1 <= k < i && k < |ranges| :: ToMinutes(ranges[k - 1].to) <= ToMinutes(ranges[k].from)
    {
      if ToMinutes(ranges[i].from) < ToMinutes(ranges[i - 1].to) {
        return false;
      }
      i := i + 1;
    }
    apart := true;
  }

  /** One day: each item in turn, then the order, then each range against the one before it. */
  method ValidateOne(raw: RawDay) returns (result: Result<seq<Range>>)
    ensures result == ValidateDay(raw)
  {
    match raw
    case Absent => return Ok([]);
    case NotAList => return Err(0, NotAnArray);
    case Listed(items) =>
      result := ParseItems(items);
      if result.Ok? {
        var sorted := Sort(result.value, Start);
        var apart := AreApart(sorted);
        result := if apart then Ok(sorted) else Err(0, Overlapping);
      }
  }

  lemma {:induction false} FirstBadDay(raw: seq<RawDay>, from: nat, bad: nat)
    requires from <= bad < |raw| && (forall d | from <= d < bad :: ValidateDay(raw[d]).Ok?) && ValidateDay(raw[bad]).Err?
    ensures ValidateFrom(raw, from) == Err(bad, ValidateDay(raw[bad]).problem)
    decreases bad - from
  {
    if from < bad {
      FirstBadDay(raw, from + 1, bad);
    }
  }

  /** The days one after another; the first problem found is the answer. */
  method ValidateWeek(raw: seq<RawDay>) returns (result: Result<Week>)
    ensures result == ValidateSchedule(raw)
  {
    var week: Week := [];
    for day := 0 to |raw|
      invariant |week| == day && forall d | 0 <= d < day :: ValidateDay(raw[d]) == Ok(week[d])
    {
      var one := ValidateOne(raw[day]);
      if one.Err? {
        FirstBadDay(raw, 0, day);
        return Err(day, one.problem);
      }
      week := week + [one.value];
    }
    DaysMakeTheWeek(raw, week, 0);
    assert week[0..] == week;
    result := Ok(week);
  }

  // ─── Opening next ────────────────────────────────────────

  /** A calendar day, counted from a Monday. */
  type Day = int

  datatype Closure = Closure(start: Day, end: Day)

  predicate ClosedOn(closures: seq<Closure>, day: Day) {
    exists c | c in closures :: c.start <= day <= c.end
  }

  datatype Opening = Opening(offset: nat, range: Range)

  /** A range that has yet to open: today only those that have not started. */
  predicate Opens(w: Week, closures: seq<Closure>, today: Day, now: int, o: Opening)
    requires |w| == 7
  {
    && !ClosedOn(closures, today + o.offset)
    && o.range in w[(today + o.offset) % 7]
    && (o.offset > 0 || ToMinutes(o.range.from) > now)
  }

  /** A closure shuts its first and its last day too. */
  lemma ClosedIff(closures: seq<Closure>, day: Day)
    ensures ClosedOn(closures, day) <==> exists c | c in closures :: !(day < c.start) && !(c.end < day)
  {
  }

  /** A range opens exactly when it is one of its day's, the day is closed by nothing, and it starts later than this minute. */
  lemma OpensIff(w: Week, closures: seq<Closure>, today: Day, now: int, o: Opening)
    requires |w| == 7 && TidyWeek(w) && 0 <= now < 1440
    ensures Opens(w, closures, today, now, o) <==>
            && o.range in w[(today + o.offset) % 7]
            && (forall c | c in closures :: today + o.offset < c.start || c.end < today + o.offset)
            && now < o.offset * 1440 + ToMinutes(o.range.from)
  {
    if o.range in w[(today + o.offset) % 7] {
      assert Tidy(w[(today + o.offset) % 7]);
      var h, m := TimeIsAClock(o.range.from);
      ClockIsATime(h, m);
    }
  }

  /** It opens no later than the other one. */
  predicate NoLater(a: Opening, b: Opening) {
    a.offset < b.offset || (a.offset == b.offset && ToMinutes(a.range.from) <= ToMinutes(b.range.from))
  }

  /** The first of a day's ranges still to open: any range of a later day, one not started yet today. */
  method FirstToOpen(ranges: seq<Range>, later: bool, now: int) returns (first: Option<Range>)
    requires Tidy(ranges)
    ensures first.Some? ==> first.value in ranges && (later || ToMinutes(first.value.from) > now)
    ensures forall r | r in ranges && (later || ToMinutes(r.from) > now) :: first.Some? && Before(first.value, r)
  {
    TidyIsSorted(ranges);
    for i := 0 to |ranges|
      invariant forall k | 0 <= k < i :: !later && ToMinutes(ranges[k].from) <= now
    {
      if later || ToMinutes(ranges[i].from) > now {
        return Some(ranges[i]);
      }
    }
    first := None;
  }

  /**
   * The earliest opening after now, outside every closure, from today to the same weekday of the next week; none
   * exactly when there is none.
   */
  method NextOpening(w: Week, closures: seq<Closure>, today: Day, now: int) returns (next: Option<Opening>)
    requires |w| == 7 && TidyWeek(w)
    ensures next.Some? ==> next.value.offset <= 7 && Opens(w, closures, today, now, next.value)
    ensures forall o: Opening | o.offset <= 7 && Opens(w, closures, today, now, o) :: next.Some? && NoLater(next.value, o)
  {
    for offset := 0 to 8
      invariant forall o: Opening | o.offset < offset :: !Opens(w, closures, today, now, o)
    {
      if ClosedOn(closures, today + offset) {
        continue;
      }
      var first := FirstToOpen(w[(today + offset) % 7], offset > 0, now);
      if first.Some? {
        return Some(Opening(offset, first.value));
      }
    }
    next := None;
  }

  /** With no closure from today on and some weekday open, there is an opening: the eighth day is today again, in full. */
  lemma OpensWithinTheWeek(w: Week, closures: seq<Closure>, today: Day, now: int, weekday: nat)
    requires |w| == 7 && TidyWeek(w) && weekday < 7 && w[weekday] != []
    requires forall c | c in closures :: c.end < today || today + 7 < c.start
    ensures exists o: Opening :: o.offset <= 7 && Opens(w, closures, today, now, o)
  {
    var offset := (weekday - today) % 7;
    var days := if offset == 0 then 7 else offset;
    assert (today + days) % 7 == weekday;
    assert Opens(w, closures, today, now, Opening(days, w[weekday][0]));
  }
}
