/** The people of an office, kept as one comma-separated text. */
module StaffNames {
  import opened Texts
  import opened Wrappers

  /** How the platform lower-cases a text; nothing below depends on how it does. */
  type Lower = string -> string

  function Cleaned(parts: seq<string>): seq<string> {
    if parts == [] then [] else (if Trim(parts[0]) == "" then [] else [Trim(parts[0])]) + Cleaned(parts[1..])
  }

  function Parse(value: Option<string>): seq<string> {
    Cleaned(Split(value.GetOr(""), ','))
  }

  /** The names kept out of a list: trimmed, not empty, the first of those that differ only in case. */
  function Kept(names: seq<string>, seen: set<string>, lower: Lower): seq<string> {
    if names == [] then [] else
      var name := Trim(names[0]);
      if name == "" || lower(name) in seen then Kept(names[1..], seen, lower)
      else [name] + Kept(names[1..], seen + {lower(name)}, lower)
  }

  function Serialize(names: seq<string>, lower: Lower): Option<string> {
    var kept := Kept(names, {}, lower);
    if kept == [] then None else Some(Join(kept, ", "))
  }

  lemma {:induction false} KeptStep(names: seq<string>, last: string, seen: set<string>, lower: Lower)
    ensures Kept(names + [last], seen, lower) ==
            Kept(names, seen, lower) + Kept([last], seen + Cases(Kept(names, seen, lower), lower), lower)
  {
    if names == [] {
      assert [] + [last] == [last] && seen + Cases([], lower) == seen;
    } else {
      var rest, name := names[1..], Trim(names[0]);
      assert (names + [last])[1..] == rest + [last];
      if name == "" || lower(name) in seen {
        KeptStep(rest, last, seen, lower);
      } else {
        var after := seen + {lower(name)};
        KeptStep(rest, last, after, lower);
        CasesOfMore(name, Kept(rest, after, lower), lower);
        assert after + Cases(Kept(rest, after, lower), lower) == seen + Cases([name] + Kept(rest, after, lower), lower);
      }
    }
  }

  function Cases(names: seq<string>, lower: Lower): set<string> {
    set i | 0 <= i < |names| :: lower(names[i])
  }

  lemma CasesOfMore(name: string, rest: seq<string>, lower: Lower)
    ensures Cases([name] + rest, lower) == {lower(name)} + Cases(rest, lower)
  {
    var all := [name] + rest;
    assert all[0] == name;
    forall c | c in Cases(rest, lower)
      ensures c in Cases(all, lower)
    {
      var i :| 0 <= i < |rest| && lower(rest[i]) == c;
      assert all[i + 1] == rest[i];
    }
  }

  lemma CasesOfLast(names: seq<string>, name: string, lower: Lower)
    ensures Cases(names + [name], lower) == Cases(names, lower) + {lower(name)}
  {
    var all := names + [name];
    assert all[|names|] == name;
    forall c | c in Cases(names, lower)
      ensures c in Cases(all, lower)
    {
      var i :| 0 <= i < |names| && lower(names[i]) == c;
      assert all[i] == names[i];
    }
  }

  /** One pass, with the lower-case names seen so far. */
  method SerializeStaffNames(names: seq<string>, lower: Lower) returns (text: Option<string>)
    ensures text == Serialize(names, lower)
  {
    var seen: set<string>, unique: seq<string> := {}, [];
    assert names[..0] == [];
    for i := 0 to |names|
      invariant unique == Kept(names[..i], {}, lower) && seen == Cases(unique, lower)
    {
      var name := Trim(names[i]);
      assert names[..i + 1] == names[..i] + [names[i]];
      KeptStep(names[..i], names[i], {}, lower);
      assert {} + Cases(unique, lower) == seen;
      if name != "" && lower(name) !in seen {
        CasesOfLast(unique, name, lower);
        seen, unique := seen + {lower(name)}, unique + [name];
      }
    }
    assert names[..|names|] == names;
    text := if unique == [] then None else Some(Join(unique, ", "));
  }

  predicate Proper(names: seq<string>) {
    forall i | 0 <= i < |names| :: names[i] != "" && Trimmed(names[i])
  }

  /** The kept names are proper ones, no two alike but for case, and stand for every name that was sent. */
  lemma {:induction false} KeptStandForAll(names: seq<string>, seen: set<string>, lower: Lower)
    ensures var kept := Kept(names, seen, lower);
            && Proper(kept)
            && (forall i, j | 0 <= i < j < |kept| :: lower(kept[i]) != lower(kept[j]))
            && Cases(kept, lower) !! seen
            && forall i | 0 <= i < |names| && Trim(names[i]) != "" :: lower(Trim(names[i])) in seen + Cases(kept, lower)
  {
    if names != [] {
      var rest, name := names[1..], Trim(names[0]);
      TrimTrims(names[0]);
      if name == "" || lower(name) in seen {
        KeptStandForAll(rest, seen, lower);
      } else {
        var after := seen + {lower(name)};
        var more := Kept(rest, after, lower);
        KeptStandForAll(rest, after, lower);
        CasesOfMore(name, more, lower);
        forall i | 0 <= i < |more|
          ensures lower(more[i]) != lower(name)
        {
          assert lower(more[i]) in Cases(more, lower);
        }
      }
      assert forall i | 1 <= i < |names| :: names[i] == rest[i - 1];
    }
  }

  // ─── Reading the text back ───────────────────────────────

  lemma SpaceIsTrimmed(p: string)
    ensures Trim(" " + p) == Trim(p)
  {
    assert (" " + p)[1..] == p;
  }

  lemma CleanedAfterSpace(text: string)
    ensures Cleaned(Split(" " + text, ',')) == Cleaned(Split(text, ','))
  {
    assert (" " + text)[1..] == text;
    var parts := Split(text, ',');
    assert Split(" " + text, ',') == [" " + parts[0]] + parts[1..];
    SpaceIsTrimmed(parts[0]);
    assert ([" " + parts[0]] + parts[1..])[1..] == parts[1..];
  }

  lemma {:induction false} NoCommaReadsBack(names: seq<string>)
    requires names != [] && Proper(names) && Without(names, ',')
    ensures Cleaned(Split(Join(names, ", "), ',')) == names
  {
    TrimTrims(names[0]);
    if |names| == 1 {
      SplitNone(names[0], ',');
      assert [names[0]][1..] == [];
    } else {
      var rest := Join(names[1..], ", ");
      assert Join(names, ", ") == names[0] + [','] + (" " + rest);
      SplitAtFirst(names[0], " " + rest, ',');
      CleanedAfterSpace(rest);
      NoCommaReadsBack(names[1..]);
      assert ([names[0]] + Split(" " + rest, ','))[1..] == Split(" " + rest, ',');
    }
  }

  lemma {:induction false} TrimStartAddsNothing(s: string, c: char)
    ensures c in TrimStart(s) ==> c in s
  {
    if s != "" && IsBlank(s[0]) {
      TrimStartAddsNothing(s[1..], c);
    }
  }

  lemma {:induction false} CleanedHasNoComma(parts: seq<string>)
    requires Without(parts, ',')
    ensures Without(Cleaned(parts), ',')
  {
    if parts != [] {
      CleanedHasNoComma(parts[1..]);
      TrimStartAddsNothing(parts[0], ',');
      TrimEndKeeps(TrimStart(parts[0]));
    }
  }

  /** The stored text reads back as the kept names exactly when none of them has a comma inside. */
  lemma StaffReadsBackIff(names: seq<string>, lower: Lower)
    ensures Parse(Serialize(names, lower)) == Kept(names, {}, lower) <==> Without(Kept(names, {}, lower), ',')
  {
    var kept := Kept(names, {}, lower);
    KeptStandForAll(names, {}, lower);
    if kept == [] {
      assert Trim("") == "" && Cleaned([""]) == Cleaned([]);
    } else if Without(kept, ',') {
      NoCommaReadsBack(kept);
    }
    SplitHasNone(Serialize(names, lower).GetOr(""), ',');
    CleanedHasNoComma(Split(Serialize(names, lower).GetOr(""), ','));
  }

  lemma ParsedHasNoComma(value: Option<string>, lower: Lower)
    ensures Without(Kept(Parse(value), {}, lower), ',')
  {
    SplitHasNone(value.GetOr(""), ',');
    CleanedHasNoComma(Split(value.GetOr(""), ','));
    KeptHasNoComma(Parse(value), {}, lower);
  }

  lemma {:induction false} KeptHasNoComma(names: seq<string>, seen: set<string>, lower: Lower)
    requires Without(names, ',')
    ensures Without(Kept(names, seen, lower), ',')
  {
    if names != [] {
      var name := Trim(names[0]);
      TrimStartAddsNothing(names[0], ',');
      TrimEndKeeps(TrimStart(names[0]));
      KeptHasNoComma(names[1..], if name == "" || lower(name) in seen then seen else seen + {lower(name)}, lower);
    }
  }

  lemma {:induction false} ProperAreKept(names: seq<string>, seen: set<string>, lower: Lower)
    requires Proper(names) && Cases(names, lower) !! seen
    requires forall i, j | 0 <= i < j < |names| :: lower(names[i]) != lower(names[j])
    ensures Kept(names, seen, lower) == names
  {
    if names != [] {
      var rest := names[1..];
      TrimTrims(names[0]);
      assert names == [names[0]] + rest;
      CasesOfMore(names[0], rest, lower);
      forall c | c in Cases(rest, lower)
        ensures c != lower(names[0])
      {
        var i :| 0 <= i < |rest| && lower(rest[i]) == c;
        assert rest[i] == names[i + 1];
      }
      ProperAreKept(rest, seen + {lower(names[0])}, lower);
    }
  }

  /** Keeping what was kept keeps it all. */
  lemma KeptAgain(names: seq<string>, lower: Lower)
    ensures Kept(Kept(names, {}, lower), {}, lower) == Kept(names, {}, lower)
  {
    KeptStandForAll(names, {}, lower);
    ProperAreKept(Kept(names, {}, lower), {}, lower);
  }
}
