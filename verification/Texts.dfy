/** The string operations the models share: cutting, trimming, upper case, joining and splitting. */
module Texts {
  /** The white space and line ends that trim, trimStart and trimEnd drop. */
  predicate IsBlank(c: char) {
    var n := c as int;
    || 0x9 <= n <= 0xd || n == 0x20 || n == 0xa0 || n == 0x1680 || 0x2000 <= n <= 0x200a
    || n == 0x2028 || n == 0x2029 || n == 0x202f || n == 0x205f || n == 0x3000 || n == 0xfeff
  }

  predicate IsDigit(c: char) { '0' <= c <= '9' }

  /** The text, or its beginning when it is longer. */
  function Cut(s: string, max: nat): (r: string)
    ensures r <= s && |r| <= max && (|r| < max ==> r == s)
  {
    if |s| <= max then s else s[..max]
  }

  function TrimStart(s: string): string {
    if s != "" && IsBlank(s[0]) then TrimStart(s[1..]) else s
  }

  function TrimEnd(s: string): string {
    if s != "" && IsBlank(s[|s| - 1]) then TrimEnd(s[..|s| - 1]) else s
  }

  function Trim(s: string): string { TrimEnd(TrimStart(s)) }

  predicate Trimmed(s: string) { s == "" || (!IsBlank(s[0]) && !IsBlank(s[|s| - 1])) }

  lemma {:induction false} TrimStartKeeps(s: string)
    ensures TrimStart(s) == s <==> s == "" || !IsBlank(s[0])
    ensures |TrimStart(s)| <= |s| && (TrimStart(s) == "" || !IsBlank(TrimStart(s)[0]))
  {
    if s != "" {
      TrimStartKeeps(s[1..]);
    }
  }

  lemma {:induction false} TrimEndKeeps(s: string)
    ensures TrimEnd(s) == s <==> s == "" || !IsBlank(s[|s| - 1])
    ensures TrimEnd(s) <= s && (TrimEnd(s) == "" || !IsBlank(TrimEnd(s)[|TrimEnd(s)| - 1]))
  {
    if s != "" && IsBlank(s[|s| - 1]) {
      TrimEndKeeps(s[..|s| - 1]);
    }
  }

  /** Trimming leaves a trimmed text, and leaves a trimmed text as it is. */
  lemma TrimTrims(s: string)
    ensures Trimmed(Trim(s)) && (Trim(s) == s <==> Trimmed(s))
  {
    TrimStartKeeps(s);
    TrimEndKeeps(TrimStart(s));
    if Trim(s) == s {
      assert |TrimStart(s)| == |s|;
    }
  }

  function Upper(s: string): string {
    if s == "" then "" else
      [if 'a' <= s[0] <= 'z' then (s[0] as int - 32) as char else s[0]] + Upper(s[1..])
  }

  /** The text is the word, each of its capitals written large or small. */
  predicate Spells(s: string, word: string) {
    |s| == |word| && forall i | 0 <= i < |word| :: SpellsAt(s[i], word[i])
  }

  predicate SpellsAt(c: char, capital: char) {
    c == capital || ('A' <= capital <= 'Z' && c as int == capital as int + 32)
  }

  /** A word with no small letters. */
  predicate Capitals(word: string) { forall c | c in word :: !('a' <= c <= 'z') }

  lemma SpellsFirst(s: string, word: string)
    requires s != "" && word != ""
    ensures Spells(s, word) <==> SpellsAt(s[0], word[0]) && Spells(s[1..], word[1..])
  {
    if SpellsAt(s[0], word[0]) && Spells(s[1..], word[1..]) {
      forall i | 0 <= i < |word|
        ensures SpellsAt(s[i], word[i])
      {
        assert i > 0 ==> SpellsAt(s[1..][i - 1], word[1..][i - 1]);
      }
    }
  }

  lemma {:induction false} UpperSpells(s: string, word: string)
    requires Capitals(word)
    ensures Upper(s) == word <==> Spells(s, word)
  {
    if s != "" && word != "" {
      assert word[0] in word && forall c | c in word[1..] :: c in word;
      UpperSpells(s[1..], word[1..]);
      SpellsFirst(s, word);
      assert word == [word[0]] + word[1..];
      assert Upper(s)[0] == word[0] <==> SpellsAt(s[0], word[0]);
      assert Upper(s)[1..] == Upper(s[1..]);
    }
  }

  lemma {:induction false} UpperCut(s: string, n: nat)
    requires n <= |s|
    ensures |Upper(s)| == |s| && Upper(s)[..n] == Upper(s[..n])
  {
    if s != "" {
      UpperCut(s[1..], if n == 0 then 0 else n - 1);
      if n > 0 {
        assert s[..n][1..] == s[1..][..n - 1];
      }
    }
  }

  /** The text begins with the word, written large or small. */
  lemma UpperBegins(s: string, word: string)
    requires Capitals(word)
    ensures word <= Upper(s) <==> |word| <= |s| && Spells(s[..|word|], word)
  {
    UpperCut(s, if |word| <= |s| then |word| else 0);
    if |word| <= |s| {
      UpperSpells(s[..|word|], word);
    }
  }

  lemma {:induction false} UpperSlice(s: string, i: nat, j: nat)
    requires i <= j <= |s|
    ensures |Upper(s)| == |s| && Upper(s)[i..j] == Upper(s[i..j])
  {
    if i == 0 {
      UpperCut(s, j);
      assert s[0..j] == s[..j] && Upper(s)[0..j] == Upper(s)[..j];
    } else {
      UpperSlice(s[1..], i - 1, j - 1);
      assert s[1..][i - 1..j - 1] == s[i..j];
    }
  }

  /** The word stands at a place of the text, written large or small. */
  predicate SpelledAt(s: string, word: string, i: int) {
    0 <= i <= |s| - |word| && Spells(s[i..i + |word|], word)
  }

  lemma UpperFoundAt(s: string, word: string, i: int)
    requires Capitals(word)
    ensures FoundAt(Upper(s), word, i) <==> SpelledAt(s, word, i)
  {
    UpperCut(s, 0);
    if 0 <= i <= |s| - |word| {
      UpperSlice(s, i, i + |word|);
      UpperSpells(s[i..i + |word|], word);
    }
  }

  lemma UpperContains(s: string, word: string)
    requires Capitals(word)
    ensures Contains(Upper(s), word) <==> exists i :: SpelledAt(s, word, i)
  {
    UpperCut(s, 0);
    if i :| 0 <= i <= |Upper(s)| && FoundAt(Upper(s), word, i) {
      UpperFoundAt(s, word, i);
    }
    if i :| SpelledAt(s, word, i) {
      UpperFoundAt(s, word, i);
    }
  }

  // ─── A text within another ───────────────────────────────

  predicate FoundAt(s: string, part: string, i: int) {
    0 <= i <= |s| - |part| && s[i..i + |part|] == part
  }

  predicate Contains(s: string, part: string) {
    exists i | 0 <= i <= |s| :: FoundAt(s, part, i)
  }

  lemma ContainsItself(s: string)
    ensures Contains(s, s)
  {
    assert FoundAt(s, s, 0);
  }

  lemma ContainsThrough(whole: string, middle: string, part: string)
    requires Contains(whole, middle) && Contains(middle, part)
    ensures Contains(whole, part)
  {
    var i :| 0 <= i <= |whole| && FoundAt(whole, middle, i);
    var j :| 0 <= j <= |middle| && FoundAt(middle, part, j);
    forall k | 0 <= k < |part|
      ensures whole[i + j + k] == part[k]
    {
      assert part[k] == middle[j + k] == whole[i + (j + k)];
    }
    assert FoundAt(whole, part, i + j);
  }

  // ─── Joining, and what a joined text still tells ─────────

  function Join<T>(parts: seq<seq<T>>, glue: seq<T>): seq<T> {
    if |parts| == 0 then [] else if |parts| == 1 then parts[0] else parts[0] + glue + Join(parts[1..], glue)
  }

  ghost predicate Without<T>(parts: seq<seq<T>>, sep: T) {
    forall i | 0 <= i < |parts| :: sep !in parts[i]
  }

  /** What stands before the first separator tells where it is. */
  lemma SplitsOneWay<T>(p: seq<T>, x: seq<T>, q: seq<T>, y: seq<T>, sep: T)
    requires sep !in p && sep !in q && p + [sep] + x == q + [sep] + y
    ensures p == q && x == y
  {
    var whole := p + [sep] + x;
    assert whole[|p|] == sep && whole[|q|] == sep;
    assert p == whole[..|p|] && q == whole[..|q|];
    assert x == whole[|p| + 1..] && y == whole[|q| + 1..];
  }

  /** Parts without the separator come back whole from the joined text. */
  lemma {:induction false} JoinLosesNothing<T>(a: seq<seq<T>>, b: seq<seq<T>>, sep: T)
    requires a != [] && b != [] && Without(a, sep) && Without(b, sep)
    requires Join(a, [sep]) == Join(b, [sep])
    ensures a == b
  {
    if |a| > 1 && |b| > 1 {
      SplitsOneWay(a[0], Join(a[1..], [sep]), b[0], Join(b[1..], [sep]), sep);
      JoinLosesNothing(a[1..], b[1..], sep);
      assert a == [a[0]] + a[1..] && b == [b[0]] + b[1..];
    } else if |a| > 1 || |b| > 1 {
      assert false;
    } else {
      assert a == [a[0]] && b == [b[0]];
    }
  }

  /** The stretches between separators, one more than there are separators. */
  function Split(s: string, sep: char): (parts: seq<string>)
    ensures |parts| > 0
  {
    if s == "" then [""] else
      var rest := Split(s[1..], sep);
      if s[0] == sep then [""] + rest else [[s[0]] + rest[0]] + rest[1..]
  }

  lemma {:induction false} SplitAtFirst(p: string, rest: string, sep: char)
    requires sep !in p
    ensures Split(p + [sep] + rest, sep) == [p] + Split(rest, sep)
  {
    if p == "" {
      assert p + [sep] + rest == [sep] + rest;
      assert ([sep] + rest)[1..] == rest;
    } else {
      SplitAtFirst(p[1..], rest, sep);
      assert (p + [sep] + rest)[1..] == p[1..] + [sep] + rest;
      assert [p[0]] + p[1..] == p;
    }
  }

  lemma {:induction false} SplitNone(p: string, sep: char)
    requires sep !in p
    ensures Split(p, sep) == [p]
  {
    if p != "" {
      SplitNone(p[1..], sep);
      assert [p[0]] + p[1..] == p;
    }
  }

  /** Parts without the separator come back from the text joined with it. */
  lemma {:induction false} SplitJoins(parts: seq<string>, sep: char)
    requires parts != [] && Without(parts, sep)
    ensures Split(Join(parts, [sep]), sep) == parts
  {
    if |parts| == 1 {
      SplitNone(parts[0], sep);
      assert parts == [parts[0]];
    } else {
      assert Without(parts[1..], sep) by {
        forall i | 0 <= i < |parts[1..]|
          ensures sep !in parts[1..][i]
        {
          assert parts[1..][i] == parts[i + 1];
        }
      }
      SplitJoins(parts[1..], sep);
      SplitAtFirst(parts[0], Join(parts[1..], [sep]), sep);
      assert parts == [parts[0]] + parts[1..];
    }
  }

  lemma {:induction false} SplitHasNone(s: string, sep: char)
    ensures Without(Split(s, sep), sep)
  {
    if s != "" {
      SplitHasNone(s[1..], sep);
    }
  }
}
