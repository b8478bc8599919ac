/** The weekly schedule in words: consecutive days with the same hours in one group, and nothing lost on the way. */
module ScheduleText {
  import opened Schedule
  import opened Texts

  function Spaced(words: seq<string>): string { Join(words, " ") }

  lemma {:induction false} SpacedAppend(a: seq<string>, b: seq<string>)
    requires a != [] && b != []
    ensures Spaced(a + b) == Spaced(a) + " " + Spaced(b)
  {
    if |a| == 1 {
      assert (a + b)[1..] == b;
    } else {
      SpacedAppend(a[1..], b);
      assert (a + b)[1..] == a[1..] + b;
    }
  }

  function EachSpaced(parts: seq<seq<string>>): (r: seq<string>)
    ensures |r| == |parts| && forall i | 0 <= i < |parts| :: r[i] == Spaced(parts[i])
  {
    seq(|parts|, i requires 0 <= i < |parts| => Spaced(parts[i]))
  }

  /** Word lists joined by a word, then spaced, are their texts joined by that word with a space on each side. */
  lemma {:induction false} SpacedJoin(parts: seq<seq<string>>, word: string)
    requires parts != [] && forall i | 0 <= i < |parts| :: parts[i] != []
    ensures Spaced(Join(parts, [word])) == Join(EachSpaced(parts), " " + word + " ")
    ensures Join(parts, [word]) != []
  {
    if |parts| > 1 {
      SpacedJoin(parts[1..], word);
      SpacedJoinStep(parts[0], Join(parts[1..], [word]), word);
      assert EachSpaced(parts)[1..] == EachSpaced(parts[1..]);
    }
  }

  lemma SpacedJoinStep(first: seq<string>, rest: seq<string>, word: string)
    requires first != [] && rest != []
    ensures Spaced(first + [word] + rest) == Spaced(first) + (" " + word + " ") + Spaced(rest)
  {
    SpacedAppend([word], rest);
    SpacedAppend(first, [word] + rest);
    assert first + [word] + rest == first + ([word] + rest);
    assert Spaced([word]) == word;
    assert Spaced(first) + " " + (word + " " + Spaced(rest)) == Spaced(first) + (" " + word + " ") + Spaced(rest);
  }

  // ─── Times and ranges ────────────────────────────────────

  /** "9", "17:30": no leading zero, and no minutes on the hour. */
  function TimeText(t: string): string
    requires IsTime(t)
  {
    var hour := if t[0] == '0' then [t[1]] else t[..2];
    if t[3..] == "00" then hour else hour + ":" + t[3..]
  }

  lemma TimeTextLosesNothing(a: string, b: string)
    requires IsTime(a) && IsTime(b) && TimeText(a) == TimeText(b)
    ensures a == b
  {
    var x, y := TimeText(a), TimeText(b);
    assert a[3..] == "00" <==> |x| <= 2;
    assert b[3..] == "00" <==> |y| <= 2;
    assert a[0] == '0' <==> |x| == 1 || |x| == 4;
    assert b[0] == '0' <==> |y| == 1 || |y| == 4;
    if |x| > 2 {
      assert a[3..] == x[|x| - 2..];
      assert b[3..] == y[|y| - 2..];
      assert a[3] == a[3..][0] && a[4] == a[3..][1] && b[3] == b[3..][0] && b[4] == b[3..][1];
    } else {
      assert a[3] == a[3..][0] && a[4] == a[3..][1] && b[3] == b[3..][0] && b[4] == b[3..][1];
    }
    if a[0] == '0' {
      assert x[0] == a[1] && y[0] == b[1];
    } else {
      assert x[0] == a[0] && x[1] == a[1] && y[0] == b[0] && y[1] == b[1];
    }
  }

  lemma TimeTextIsAWord(t: string)
    requires IsTime(t)
    ensures ' ' !in TimeText(t) && TimeText(t) != "y" && TimeText(t) != "·"
  {
    assert IsDigit(TimeText(t)[0]);
  }

  function RangeText(r: Range): string
    requires ValidRange(r)
  {
    "de " + TimeText(r.from) + " a " + TimeText(r.to)
  }

  function RangeTexts(ranges: seq<Range>): (texts: seq<string>)
    requires AllValid(ranges)
    ensures |texts| == |ranges| && forall i | 0 <= i < |ranges| :: texts[i] == RangeText(ranges[i])
  {
    seq(|ranges|, i requires 0 <= i < |ranges| => RangeText(ranges[i]))
  }

  function RangesText(ranges: seq<Range>): string
    requires AllValid(ranges)
  {
    Join(RangeTexts(ranges), " y ") + " hs"
  }

  function RangeWords(r: Range): seq<string>
    requires ValidRange(r)
  {
    ["de", TimeText(r.from), "a", TimeText(r.to)]
  }

  function EachRangeWords(ranges: seq<Range>): (words: seq<seq<string>>)
    requires AllValid(ranges)
    ensures |words| == |ranges| && forall i | 0 <= i < |ranges| :: words[i] == RangeWords(ranges[i])
  {
    seq(|ranges|, i requires 0 <= i < |ranges| => RangeWords(ranges[i]))
  }

  function RangesWords(ranges: seq<Range>): seq<string>
    requires AllValid(ranges)
  {
    Join(EachRangeWords(ranges), ["y"]) + ["hs"]
  }

  lemma RangeIsSpaced(r: Range)
    requires ValidRange(r)
    ensures Spaced(RangeWords(r)) == RangeText(r)
  {
    var w := RangeWords(r);
    SpacedAppend(["de"], [TimeText(r.from)]);
    SpacedAppend(["a"], [TimeText(r.to)]);
    SpacedAppend(["de"] + [TimeText(r.from)], ["a"] + [TimeText(r.to)]);
    assert w == (["de"] + [TimeText(r.from)]) + (["a"] + [TimeText(r.to)]);
  }

  lemma JoinThen(text: string)
    ensures text + " " + "hs" == text + " hs"
  {
    assert " " + "hs" == " hs";
    assert text + " " + "hs" == text + (" " + "hs");
  }

  lemma RangesAreSpaced(ranges: seq<Range>)
    requires AllValid(ranges) && ranges != []
    ensures Spaced(RangesWords(ranges)) == RangesText(ranges)
  {
    var words := EachRangeWords(ranges);
    SpacedJoin(words, "y");
    forall i | 0 <= i < |ranges|
      ensures EachSpaced(words)[i] == RangeTexts(ranges)[i]
    {
      RangeIsSpaced(ranges[i]);
    }
    assert EachSpaced(words) == RangeTexts(ranges);
    SpacedAppend(Join(words, ["y"]), ["hs"]);
    assert " " + "y" + " " == " y ";
    assert Spaced(Join(words, ["y"])) == Join(RangeTexts(ranges), " y ");
    JoinThen(Join(RangeTexts(ranges), " y "));
  }

  lemma RangesWordsLoseNothing(a: seq<Range>, b: seq<Range>)
    requires AllValid(a) && AllValid(b) && a != [] && b != []
    requires RangesWords(a) == RangesWords(b)
    ensures a == b
  {
    var x, y := EachRangeWords(a), EachRangeWords(b);
    assert Join(x, ["y"]) == RangesWords(a)[..|RangesWords(a)| - 1];
    assert Join(y, ["y"]) == RangesWords(b)[..|RangesWords(b)| - 1];
    NoAndInRanges(a);
    NoAndInRanges(b);
    JoinLosesNothing(x, y, "y");
    forall i | 0 <= i < |a|
      ensures a[i] == b[i]
    {
      assert ValidRange(a[i]) && ValidRange(b[i]);
      assert x[i][1] == TimeText(a[i].from) && x[i][3] == TimeText(a[i].to);
      assert y[i][1] == TimeText(b[i].from) && y[i][3] == TimeText(b[i].to);
      TimeTextLosesNothing(a[i].from, b[i].from);
      TimeTextLosesNothing(a[i].to, b[i].to);
    }
  }

  lemma NoAndInRanges(ranges: seq<Range>)
    requires AllValid(ranges)
    ensures Without(EachRangeWords(ranges), "y")
  {
    forall i | 0 <= i < |ranges|
      ensures "y" !in EachRangeWords(ranges)[i]
    {
      assert ValidRange(ranges[i]);
      TimeTextIsAWord(ranges[i].from);
      TimeTextIsAWord(ranges[i].to);
    }
  }

  // ─── The signature two days are compared by ──────────────

  function Signatures(ranges: seq<Range>): (texts: seq<string>)
    ensures |texts| == |ranges| && forall i | 0 <= i < |ranges| :: texts[i] == ranges[i].from + "-" + ranges[i].to
  {
    seq(|ranges|, i requires 0 <= i < |ranges| => ranges[i].from + "-" + ranges[i].to)
  }

  function Signature(ranges: seq<Range>): string {
    Join(Signatures(ranges), ",")
  }

  lemma SignatureIsNotEmpty(ranges: seq<Range>)
    requires ranges != []
    ensures Signature(ranges) != ""
  {
    assert |Signatures(ranges)[0]| > 0;
  }

  lemma NoCommaInSignatures(ranges: seq<Range>)
    requires AllValid(ranges)
    ensures Without(Signatures(ranges), ',')
  {
    forall i | 0 <= i < |ranges|
      ensures ',' !in Signatures(ranges)[i]
    {
      assert ValidRange(ranges[i]);
    }
  }

  /** Two days have the same signature exactly when they have the same hours. */
  lemma SignatureTells(a: seq<Range>, b: seq<Range>)
    requires AllValid(a) && AllValid(b)
    ensures Signature(a) == Signature(b) <==> a == b
  {
    if Signature(a) == Signature(b) {
      if a == [] || b == [] {
        if a != [] { SignatureIsNotEmpty(a); }
        if b != [] { SignatureIsNotEmpty(b); }
      } else {
        NoCommaInSignatures(a);
        NoCommaInSignatures(b);
        JoinLosesNothing(Signatures(a), Signatures(b), ',');
        forall i | 0 <= i < |a|
          ensures a[i] == b[i]
        {
          assert ValidRange(a[i]) && ValidRange(b[i]);
          assert Signatures(a)[i][..5] == a[i].from && Signatures(a)[i][6..] == a[i].to;
          assert Signatures(b)[i][..5] == b[i].from && Signatures(b)[i][6..] == b[i].to;
        }
      }
    }
  }

  // ─── Groups of days ──────────────────────────────────────

  datatype Group = Group(first: nat, last: nat, ranges: seq<Range>)

  /** The last of the days after j that keep the hours of day i. */
  function RunTo(w: Week, i: nat, j: nat): (last: nat)
    requires i <= j < |w| && forall d | i <= d <= j :: w[d] == w[i]
    ensures j <= last < |w| && forall d | i <= d <= last :: w[d] == w[i]
    ensures last + 1 < |w| ==> w[last + 1] != w[i]
    decreases |w| - j
  {
    if j + 1 < |w| && w[j + 1] == w[i] then RunTo(w, i, j + 1) else j
  }

  function GroupsFrom(w: Week, i: nat): seq<Group>
    requires i <= |w|
    decreases |w| - i
  {
    if i == |w| then [] else
    if w[i] == [] then GroupsFrom(w, i + 1) else
      var j := RunTo(w, i, i);
      [Group(i, j, w[i])] + GroupsFrom(w, j + 1)
  }

  function Groups(w: Week): seq<Group> { GroupsFrom(w, 0) }

  predicate Covers(g: Group, day: nat) { g.first <= day <= g.last }

  /** Days in a row with the same hours, and neither neighbour has them: a run that cannot be made longer. */
  ghost predicate IsRun(w: Week, g: Group) {
    && g.first <= g.last < |w| && g.ranges != []
    && (forall d: nat | Covers(g, d) :: w[d] == g.ranges)
    && (g.first > 0 ==> w[g.first - 1] != g.ranges)
    && (g.last + 1 < |w| ==> w[g.last + 1] != g.ranges)
  }

  ghost predicate Covered(groups: seq<Group>, day: nat) { exists k :: 0 <= k < |groups| && Covers(groups[k], day) }

  ghost predicate AllRuns(w: Week, groups: seq<Group>, from: nat) {
    forall k | 0 <= k < |groups| :: IsRun(w, groups[k]) && from <= groups[k].first
  }

  ghost predicate InOrder(groups: seq<Group>) {
    forall k, l | 0 <= k < l < |groups| :: groups[k].last < groups[l].first
  }

  ghost predicate AllCovered(w: Week, groups: seq<Group>, from: nat) {
    forall d: nat | from <= d < |w| && w[d] != [] :: Covered(groups, d)
  }

  /** The runs of a week from a day on, in order, each open day in exactly one. */
  ghost predicate AreRuns(w: Week, groups: seq<Group>, from: nat) {
    AllRuns(w, groups, from) && InOrder(groups) && AllCovered(w, groups, from)
  }

  lemma CoversMore(w: Week, g: Group, rest: seq<Group>)
    requires AllCovered(w, rest, g.last + 1)
    ensures AllCovered(w, [g] + rest, g.first)
  {
    var all := [g] + rest;
    forall d: nat | g.first <= d < |w| && w[d] != []
      ensures Covered(all, d)
    {
      if d <= g.last {
        assert Covers(all[0], d);
      } else {
        assert Covered(rest, d);
        var k :| 0 <= k < |rest| && Covers(rest[k], d);
        assert Covers(all[k + 1], d);
      }
    }
  }

  lemma OneMoreInOrder(w: Week, g: Group, rest: seq<Group>)
    requires InOrder(rest) && AllRuns(w, rest, g.last + 1)
    ensures InOrder([g] + rest)
  {
    var all := [g] + rest;
    forall k, l | 0 <= k < l < |all|
      ensures all[k].last < all[l].first
    {
      assert all[l] == rest[l - 1];
      if k > 0 {
        assert all[k] == rest[k - 1];
      }
    }
  }

  lemma OneMoreRun(w: Week, g: Group, rest: seq<Group>)
    requires IsRun(w, g) && AllRuns(w, rest, g.last + 1)
    ensures AllRuns(w, [g] + rest, g.first)
  {
    var all := [g] + rest;
    forall k | 0 <= k < |all|
      ensures IsRun(w, all[k]) && g.first <= all[k].first
    {
      if k > 0 {
        assert all[k] == rest[k - 1];
      }
    }
  }

  /** A day a new run may start at: closed, or with other hours than the day before. */
  predicate Boundary(w: Week, i: nat) { 0 < i < |w| && w[i] != [] ==> w[i - 1] != w[i] }

  lemma ClosedDayAddsNone(w: Week, i: nat)
    requires i < |w| && w[i] == [] && AreRuns(w, GroupsFrom(w, i + 1), i + 1)
    ensures AreRuns(w, GroupsFrom(w, i), i)
  {
  }

  lemma RunToIsARun(w: Week, i: nat)
    requires i < |w| && w[i] != [] && Boundary(w, i)
    ensures IsRun(w, Group(i, RunTo(w, i, i), w[i])) && Boundary(w, RunTo(w, i, i) + 1)
  {
    assert w[RunTo(w, i, i)] == w[i];
  }

  lemma NextRun(w: Week, g: Group, rest: seq<Group>)
    requires IsRun(w, g) && AreRuns(w, rest, g.last + 1)
    ensures AreRuns(w, [g] + rest, g.first)
  {
    OneMoreRun(w, g, rest);
    OneMoreInOrder(w, g, rest);
    CoversMore(w, g, rest);
  }

  lemma GroupsFromStep(w: Week, i: nat)
    requires i < |w| && w[i] != []
    ensures GroupsFrom(w, i) == [Group(i, RunTo(w, i, i), w[i])] + GroupsFrom(w, RunTo(w, i, i) + 1)
  {
  }

  lemma {:induction false} GroupsFromAreRuns(w: Week, i: nat)
    requires i <= |w| && Boundary(w, i)
    ensures AreRuns(w, GroupsFrom(w, i), i)
    decreases |w| - i
  {
    if i == |w| {
      assert GroupsFrom(w, i) == [];
    } else if w[i] == [] {
      GroupsFromAreRuns(w, i + 1);
      ClosedDayAddsNone(w, i);
    } else {
      var g := Group(i, RunTo(w, i, i), w[i]);
      RunToIsARun(w, i);
      GroupsFromAreRuns(w, g.last + 1);
      NextRun(w, g, GroupsFrom(w, g.last + 1));
      GroupsFromStep(w, i);
    }
  }

  /** The groups are the runs of the whole week: every open day in exactly one, every closed day in none. */
  lemma GroupsAreTheRuns(w: Week, d: nat)
    requires d < |w|
    ensures AreRuns(w, Groups(w), 0)
    ensures w[d] != [] <==> Covered(Groups(w), d)
    ensures forall k, l | 0 <= k < |Groups(w)| && 0 <= l < |Groups(w)| && Covers(Groups(w)[k], d) && Covers(Groups(w)[l], d) :: k == l
  {
    GroupsFromAreRuns(w, 0);
    if Covered(Groups(w), d) {
      var k :| 0 <= k < |Groups(w)| && Covers(Groups(w)[k], d);
      assert IsRun(w, Groups(w)[k]);
    }
  }

  /** Two weeks with the same groups are the same week. */
  lemma GroupsLoseNothing(a: Week, b: Week)
    requires |a| == |b| && Groups(a) == Groups(b)
    ensures a == b
  {
    forall d | 0 <= d < |a|
      ensures a[d] == b[d]
    {
      GroupsAreTheRuns(a, d);
      GroupsAreTheRuns(b, d);
      if a[d] != [] {
        var k :| 0 <= k < |Groups(a)| && Covers(Groups(a)[k], d);
        assert IsRun(a, Groups(a)[k]) && IsRun(b, Groups(b)[k]);
      }
    }
  }

  // ─── The text ────────────────────────────────────────────

  const DAY_NAME := ["Lunes", "Martes", "Miércoles", "Jueves", "Viernes", "Sábado", "Domingo"]
  /** The same names in lower case. */
  const DAY_NAME_LOWER := ["lunes", "martes", "miércoles", "jueves", "viernes", "sábado", "domingo"]
  const NO_HOURS := "Sin horario de atención cargado"

  ghost predicate Fits(g: Group) { g.first <= g.last < 7 && g.ranges != [] && AllValid(g.ranges) }

  ghost predicate AllFit(groups: seq<Group>) { forall k | 0 <= k < |groups| :: Fits(groups[k]) }

  function Label(first: nat, last: nat): string
    requires first < 7 && last < 7
  {
    if last > first then DAY_NAME[first] + " a " + DAY_NAME_LOWER[last] else DAY_NAME[first]
  }

  function GroupText(g: Group): string
    requires Fits(g)
  {
    Label(g.first, g.last) + " " + RangesText(g.ranges)
  }

  function GroupTexts(groups: seq<Group>): (texts: seq<string>)
    requires AllFit(groups)
    ensures |texts| == |groups| && forall k | 0 <= k < |groups| :: texts[k] == GroupText(groups[k])
  {
    seq(|groups|, k requires 0 <= k < |groups| => GroupText(groups[k]))
  }

  function TextOf(groups: seq<Group>): string
    requires AllFit(groups)
  {
    if |groups| > 0 then Join(GroupTexts(groups), " · ") else NO_HOURS
  }

  lemma {:induction false} GroupsFit(w: Week, i: nat)
    requires |w| == 7 && TidyWeek(w) && i <= 7
    ensures AllFit(GroupsFrom(w, i))
    decreases 7 - i
  {
    if i < 7 {
      GroupsFit(w, if w[i] == [] then i + 1 else RunTo(w, i, i) + 1);
      assert Tidy(w[i]);
    }
  }

  function LabelWords(first: nat, last: nat): seq<string>
    requires first < 7 && last < 7
  {
    if last > first then [DAY_NAME[first], "a", DAY_NAME_LOWER[last]] else [DAY_NAME[first]]
  }

  function GroupWords(g: Group): seq<string>
    requires Fits(g)
  {
    LabelWords(g.first, g.last) + RangesWords(g.ranges)
  }

  function EachGroupWords(groups: seq<Group>): (words: seq<seq<string>>)
    requires AllFit(groups)
    ensures |words| == |groups| && forall k | 0 <= k < |groups| :: words[k] == GroupWords(groups[k])
  {
    seq(|groups|, k requires 0 <= k < |groups| => GroupWords(groups[k]))
  }

  lemma LabelIsSpaced(first: nat, last: nat)
    requires first < 7 && last < 7
    ensures Spaced(LabelWords(first, last)) == Label(first, last)
  {
    if last > first {
      SpacedAppend(["a"], [DAY_NAME_LOWER[last]]);
      SpacedAppend([DAY_NAME[first]], ["a", DAY_NAME_LOWER[last]]);
      assert ["a"] + [DAY_NAME_LOWER[last]] == ["a", DAY_NAME_LOWER[last]];
      assert LabelWords(first, last) == [DAY_NAME[first]] + ["a", DAY_NAME_LOWER[last]];
    }
  }

  lemma GroupIsSpaced(g: Group)
    requires Fits(g)
    ensures Spaced(GroupWords(g)) == GroupText(g)
  {
    LabelIsSpaced(g.first, g.last);
    RangesAreSpaced(g.ranges);
    SpacedAppend(LabelWords(g.first, g.last), RangesWords(g.ranges));
  }

  lemma GroupsAreSpaced(groups: seq<Group>)
    requires AllFit(groups)
    ensures EachSpaced(EachGroupWords(groups)) == GroupTexts(groups)
  {
    forall k | 0 <= k < |groups|
      ensures EachSpaced(EachGroupWords(groups))[k] == GroupTexts(groups)[k]
    {
      GroupIsSpaced(groups[k]);
    }
  }

  /** The text is its words with a space between each and the next. */
  lemma TextIsSpaced(groups: seq<Group>)
    requires groups != [] && AllFit(groups)
    ensures Spaced(Join(EachGroupWords(groups), ["·"])) == TextOf(groups)
  {
    GroupsAreSpaced(groups);
    SpacedJoin(EachGroupWords(groups), "·");
    assert " " + "·" + " " == " · ";
  }

  /** Which day a name is, from its first two letters. */
  function DayOf(name: string): nat
    requires |name| > 1
  {
    match name[0]
    case 'L' => 0 case 'l' => 0
    case 'M' => if name[1] == 'a' then 1 else 2
    case 'm' => if name[1] == 'a' then 1 else 2
    case 'J' => 3 case 'j' => 3
    case 'V' => 4 case 'v' => 4
    case 'S' => 5 case 's' => 5
    case _ => 6
  }

  lemma DayNamesTell(d: nat)
    requires d < 7
    ensures |DAY_NAME[d]| > 1 && DayOf(DAY_NAME[d]) == d && ' ' !in DAY_NAME[d] && DAY_NAME[d] != "·"
    ensures !(DAY_NAME[d][0] == 'S' && DAY_NAME[d][1] == 'i')
    ensures |DAY_NAME_LOWER[d]| > 1 && DayOf(DAY_NAME_LOWER[d]) == d && ' ' !in DAY_NAME_LOWER[d] && DAY_NAME_LOWER[d] != "·"
  {
  }

  lemma RangesWordsStartWithFrom(ranges: seq<Range>)
    requires AllValid(ranges) && ranges != []
    ensures |RangesWords(ranges)| > 0 && RangesWords(ranges)[0] == "de"
  {
    assert EachRangeWords(ranges)[0] == RangeWords(ranges[0]);
  }

  lemma GroupWordsLoseNothing(a: Group, b: Group)
    requires Fits(a) && Fits(b) && GroupWords(a) == GroupWords(b)
    ensures a == b
  {
    RangesWordsStartWithFrom(a.ranges);
    RangesWordsStartWithFrom(b.ranges);
    var x, y := GroupWords(a), GroupWords(b);
    assert x[0] == DAY_NAME[a.first] && y[0] == DAY_NAME[b.first];
    DayNamesTell(a.first);
    DayNamesTell(b.first);
    assert x[1] == "a" <==> a.last > a.first;
    assert y[1] == "a" <==> b.last > b.first;
    if a.last > a.first {
      assert x[2] == DAY_NAME_LOWER[a.last] && y[2] == DAY_NAME_LOWER[b.last];
      DayNamesTell(a.last);
      DayNamesTell(b.last);
    }
    var skip := |LabelWords(a.first, a.last)|;
    assert RangesWords(a.ranges) == x[skip..] && RangesWords(b.ranges) == y[skip..];
    RangesWordsLoseNothing(a.ranges, b.ranges);
  }

  /** A printed word: no space inside, and not the dot that parts the groups. */
  predicate IsWord(word: string) { ' ' !in word && word != "·" }

  ghost predicate AreWords(words: seq<string>) { forall i | 0 <= i < |words| :: IsWord(words[i]) }

  lemma {:induction false} JoinedAreWords(parts: seq<seq<string>>, word: string)
    requires IsWord(word) && forall i | 0 <= i < |parts| :: AreWords(parts[i])
    ensures AreWords(Join(parts, [word]))
  {
    if |parts| > 1 {
      JoinedAreWords(parts[1..], word);
    }
  }

  lemma GroupWordsAreWords(g: Group)
    requires Fits(g)
    ensures AreWords(GroupWords(g))
  {
    DayNamesTell(g.first);
    DayNamesTell(g.last);
    forall i | 0 <= i < |g.ranges|
      ensures AreWords(EachRangeWords(g.ranges)[i])
    {
      assert ValidRange(g.ranges[i]);
      TimeTextIsAWord(g.ranges[i].from);
      TimeTextIsAWord(g.ranges[i].to);
    }
    JoinedAreWords(EachRangeWords(g.ranges), "y");
  }

  lemma {:induction false} JoinHasNoSpace(parts: seq<seq<string>>)
    requires forall i | 0 <= i < |parts| :: AreWords(parts[i])
    ensures Without(Join(parts, ["·"]), ' ')
  {
    if |parts| > 1 {
      JoinHasNoSpace(parts[1..]);
    }
  }

  lemma GroupsHaveWords(groups: seq<Group>)
    requires groups != [] && AllFit(groups)
    ensures Without(EachGroupWords(groups), "·") && Without(Join(EachGroupWords(groups), ["·"]), ' ')
    ensures |Join(EachGroupWords(groups), ["·"])| > 1
    ensures Join(EachGroupWords(groups), ["·"])[0] == DAY_NAME[groups[0].first]
  {
    var words := EachGroupWords(groups);
    forall k | 0 <= k < |groups|
      ensures AreWords(words[k]) && "·" !in words[k]
    {
      GroupWordsAreWords(groups[k]);
    }
    JoinHasNoSpace(words);
    RangesWordsStartWithFrom(groups[0].ranges);
    assert |words[0]| > 1 && words[0][0] == DAY_NAME[groups[0].first];
  }

  lemma TextLosesNoGroup(a: seq<Group>, b: seq<Group>)
    requires a != [] && b != []
    requires AllFit(a) && AllFit(b)
    requires TextOf(a) == TextOf(b)
    ensures a == b
  {
    TextIsSpaced(a);
    TextIsSpaced(b);
    GroupsHaveWords(a);
    GroupsHaveWords(b);
    JoinLosesNothing(Join(EachGroupWords(a), ["·"]), Join(EachGroupWords(b), ["·"]), ' ');
    JoinLosesNothing(EachGroupWords(a), EachGroupWords(b), "·");
    forall k | 0 <= k < |a|
      ensures a[k] == b[k]
    {
      assert EachGroupWords(a)[k] == GroupWords(a[k]) && EachGroupWords(b)[k] == GroupWords(b[k]);
      GroupWordsLoseNothing(a[k], b[k]);
    }
  }

  lemma TextStartsWithADay(groups: seq<Group>) returns (rest: string)
    requires groups != [] && AllFit(groups)
    ensures TextOf(groups) == DAY_NAME[groups[0].first] + " " + rest
  {
    TextIsSpaced(groups);
    GroupsHaveWords(groups);
    rest := Spaced(Join(EachGroupWords(groups), ["·"])[1..]);
  }

  lemma AGroupIsNotNoHours(groups: seq<Group>)
    requires groups != [] && AllFit(groups)
    ensures TextOf(groups) != NO_HOURS
  {
    var rest := TextStartsWithADay(groups);
    var day := DAY_NAME[groups[0].first];
    DayNamesTell(groups[0].first);
    assert TextOf(groups)[..2] == day[..2];
    assert day[..2] != NO_HOURS[..2] by {
      assert NO_HOURS[..2][0] == 'S' && NO_HOURS[..2][1] == 'i';
    }
  }

  function TextsFrom(w: Week, i: nat): seq<string>
    requires |w| == 7 && TidyWeek(w) && i <= 7
  {
    GroupsFit(w, i);
    GroupTexts(GroupsFrom(w, i))
  }

  lemma TextsSkip(w: Week, i: nat)
    requires |w| == 7 && TidyWeek(w) && i < 7 && w[i] == []
    ensures TextsFrom(w, i) == TextsFrom(w, i + 1)
  {
    GroupsFit(w, i + 1);
  }

  lemma NoMoreTexts(w: Week)
    requires |w| == 7 && TidyWeek(w)
    ensures TextsFrom(w, 7) == []
  {
    assert GroupsFrom(w, 7) == [];
  }

  lemma TextFromTexts(w: Week)
    requires |w| == 7 && TidyWeek(w)
    ensures Text(w) == if |TextsFrom(w, 0)| > 0 then Join(TextsFrom(w, 0), " · ") else NO_HOURS
  {
  }

  lemma TextIsJoined(w: Week, texts: seq<string>)
    requires |w| == 7 && TidyWeek(w) && TextsFrom(w, 0) == texts + TextsFrom(w, 7)
    ensures Text(w) == if |texts| > 0 then Join(texts, " · ") else NO_HOURS
  {
    NoMoreTexts(w);
    assert TextsFrom(w, 0) == texts;
    TextFromTexts(w);
  }

  lemma TextsOfMore(groups: seq<Group>, texts: seq<string>)
    requires AllFit(groups) && |texts| == |groups|
    requires forall k | 0 <= k < |groups| :: texts[k] == GroupText(groups[k])
    ensures GroupTexts(groups) == texts
  {
  }

  lemma AllFitMore(g: Group, rest: seq<Group>)
    requires Fits(g) && AllFit(rest)
    ensures AllFit([g] + rest)
  {
  }

  lemma TextsOfStep(g: Group, rest: seq<Group>)
    requires Fits(g) && AllFit(rest)
    ensures AllFit([g] + rest)
    ensures GroupTexts([g] + rest) == [Label(g.first, g.last) + " " + RangesText(g.ranges)] + GroupTexts(rest)
  {
    AllFitMore(g, rest);
    TextsOfMore([g] + rest, [GroupText(g)] + GroupTexts(rest));
  }

  lemma TextsStep(w: Week, i: nat)
    requires |w| == 7 && TidyWeek(w) && i < 7 && w[i] != []
    ensures AllValid(w[i])
    ensures var j := RunTo(w, i, i);
            TextsFrom(w, i) == [Label(i, j) + " " + RangesText(w[i])] + TextsFrom(w, j + 1)
  {
    var j := RunTo(w, i, i);
    assert Tidy(w[i]);
    GroupsFit(w, j + 1);
    GroupsFromStep(w, i);
    TextsOfStep(Group(i, j, w[i]), GroupsFrom(w, j + 1));
  }

  function Text(w: Week): string
    requires |w| == 7 && TidyWeek(w)
  {
    GroupsFit(w, 0);
    TextOf(Groups(w))
  }

  /** Two accepted weeks that read the same are the same week. */
  lemma TextLosesNothing(a: Week, b: Week)
    requires |a| == 7 && |b| == 7 && TidyWeek(a) && TidyWeek(b)
    ensures Text(a) == Text(b) <==> a == b
  {
    GroupsFit(a, 0);
    GroupsFit(b, 0);
    if Text(a) == Text(b) {
      if Groups(a) == [] || Groups(b) == [] {
        if Groups(a) != [] { AGroupIsNotNoHours(Groups(a)); }
        if Groups(b) != [] { AGroupIsNotNoHours(Groups(b)); }
      } else {
        TextLosesNoGroup(Groups(a), Groups(b));
      }
      GroupsLoseNothing(a, b);
    }
  }

  lemma SameSignature(w: Week, i: nat, j: nat)
    requires TidyWeek(w) && i < |w| && j < |w|
    ensures Signature(w[i]) == Signature(w[j]) <==> w[i] == w[j]
  {
    assert Tidy(w[i]) && Tidy(w[j]);
    SignatureTells(w[i], w[j]);
  }

  /** The inner loop: on to the last day in a row with this day's signature. */
  method LastAlike(w: Week, i: nat) returns (j: nat)
    requires TidyWeek(w) && i < |w|
    ensures j == RunTo(w, i, i)
  {
    j := i;
    while j + 1 < |w| && Signature(w[j + 1]) == Signature(w[i])
      invariant i <= j < |w| && forall d | i <= d <= j :: w[d] == w[i]
      invariant RunTo(w, i, i) == RunTo(w, i, j)
      decreases |w| - j
    {
      SameSignature(w, j + 1, i);
      j := j + 1;
    }
    if j + 1 < |w| {
      SameSignature(w, j + 1, i);
    }
  }

  method PrintGroup(w: Week, i: nat) returns (group: string, next: nat)
    requires |w| == 7 && TidyWeek(w) && i < 7 && w[i] != []
    ensures i < next <= 7 && TextsFrom(w, i) == [group] + TextsFrom(w, next)
  {
    var j := LastAlike(w, i);
    TextsStep(w, i);
    group := Label(i, j) + " " + RangesText(w[i]);
    next := j + 1;
  }

  /** The two loops, comparing days by signature, print exactly the runs. */
  method FormatSchedule(w: Week) returns (text: string)
    requires |w| == 7 && TidyWeek(w)
    ensures text == Text(w)
  {
    var groups: seq<string> := [];
    var i := 0;
    while i < |w|
      invariant 0 <= i <= |w|
      invariant TextsFrom(w, 0) == groups + TextsFrom(w, i)
    {
      if w[i] == [] {
        TextsSkip(w, i);
        i := i + 1;
        continue;
      }
      var group, next := PrintGroup(w, i);
      assert groups + ([group] + TextsFrom(w, next)) == (groups + [group]) + TextsFrom(w, next);
      groups := groups + [group];
      i := next;
    }
    TextIsJoined(w, groups);
    text := if |groups| > 0 then Join(groups, " · ") else NO_HOURS;
  }
}
