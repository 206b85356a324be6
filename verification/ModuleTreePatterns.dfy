/** The regular expressions of the inventory parser, read as the texts they match. */
module ModuleTreePatterns {
  import opened Wrappers
  import opened Text
  import opened ModuleTree
  import opened ModuleTreeRoundTrip

  ghost predicate Spaces(s: string) {
    s != "" && forall c | c in s :: IsSpace(c)
  }

  /** From `i` up to `end` the text is a corner, two dashes, blanks, a name and a slash. */
  ghost predicate Matches(s: string, i: nat, name: string, end: nat) {
    && i <= end <= |s| && LegalName(name)
    && exists corner, blanks :: (corner == '├' || corner == '└') && Spaces(blanks)
         && s[i..end] == [corner, '─', '─'] + blanks + name + ['/']
  }

  lemma {:induction false} SkipSpacesStops(s: string, i: nat, k: nat)
    requires i <= k <= |s| && (forall j | i <= j < k :: IsSpace(s[j])) && (k < |s| ==> !IsSpace(s[k]))
    ensures SkipSpaces(s, i) == k
    decreases k - i
  {
    if i < k {
      SkipSpacesStops(s, i + 1, k);
    }
  }

  lemma MatchAtMatches(s: string, i: nat)
    requires MatchAt(s, i).Some?
    ensures Matches(s, i, MatchAt(s, i).value.name, MatchAt(s, i).value.end)
  {
    var j := SkipSpaces(s, i + 3);
    var k := SkipName(s, j);
    var name, blanks := s[j..k], s[i + 3..j];
    assert s[i..k + 1] == [s[i], '─', '─'] + blanks + name + ['/'];
    assert name[0] == s[j];
    assert Spaces(blanks) && LegalName(name);
  }

  lemma Pieces(s: string, i: nat, corner: char, blanks: string, name: string, end: nat)
    requires i <= end <= |s| && s[i..end] == [corner, '─', '─'] + blanks + name + ['/']
    ensures var j := i + 3 + |blanks|;
            && end == j + |name| + 1
            && s[i] == corner && s[i + 1] == s[i + 2] == '─' && s[i + 3..j] == blanks && s[j..end - 1] == name && s[end - 1] == '/'
  {
    var w := [corner, '─', '─'] + blanks + name + ['/'];
    assert |w| == end - i;
    assert forall k | 0 <= k < |w| :: s[i + k] == w[k];
    assert w[3..3 + |blanks|] == blanks && w[3 + |blanks|..|w| - 1] == name;
    assert s[i + 3..i + 3 + |blanks|] == s[i..end][3..3 + |blanks|];
    assert s[i + 3 + |blanks|..end - 1] == s[i..end][3 + |blanks|..|w| - 1];
  }

  lemma MatchesMatchAt(s: string, i: nat, name: string, end: nat)
    requires Matches(s, i, name, end)
    ensures MatchAt(s, i) == Some(Capture(name, end))
  {
    var corner, blanks :| (corner == '├' || corner == '└') && Spaces(blanks)
      && s[i..end] == [corner, '─', '─'] + blanks + name + ['/'];
    var j := i + 3 + |blanks|;
    Pieces(s, i, corner, blanks, name, end);
    BlanksThenName(s, i + 3, j, end - 1, blanks, name);
  }

  lemma BlanksThenName(s: string, i: nat, j: nat, k: nat, blanks: string, name: string)
    requires i <= j <= k < |s| && s[i..j] == blanks && s[j..k] == name && s[k] == '/' && Spaces(blanks) && LegalName(name)
    ensures SkipSpaces(s, i) == j && SkipName(s, j) == k && i < j && IsWord(s[j])
  {
    forall n | i <= n < j
      ensures IsSpace(s[n])
    {
      assert s[n] == blanks[n - i] && blanks[n - i] in blanks;
    }
    forall n | j <= n < k
      ensures IsNameChar(s[n])
    {
      assert s[n] == name[n - j] && name[n - j] in name;
    }
    assert s[j] == name[0] && name[0] in name && !IsSpace(name[0]);
    SkipSpacesStops(s, i, j);
    SkipNameStops(s, j, k);
  }

  /** The pattern matches at a position exactly the texts of its form, and captures the name. */
  lemma MatchAtIff(s: string, i: nat, name: string, end: nat)
    ensures MatchAt(s, i) == Some(Capture(name, end)) <==> Matches(s, i, name, end)
  {
    if MatchAt(s, i) == Some(Capture(name, end)) {
      MatchAtMatches(s, i);
    }
    if Matches(s, i, name, end) {
      MatchesMatchAt(s, i, name, end);
    }
  }

  /** At `k` a check mark, blanks and the word. */
  ghost predicate MarkAt(s: string, k: int, blanks: string) {
    0 <= k < |s| && Spaces(blanks) && ['✅'] + blanks + "active" <= s[k..]
  }

  predicate Marked(s: string, k: nat) {
    k < |s| && s[k] == '✅' && SkipSpaces(s, k + 1) > k + 1 && StartsWith(s[SkipSpaces(s, k + 1)..], "active")
  }

  lemma BlanksThenWord(s: string, k: nat, blanks: string, word: string)
    requires k < |s| && Spaces(blanks) && ['✅'] + blanks + word <= s[k..] && word != "" && !IsSpace(word[0])
    ensures s[k] == '✅' && SkipSpaces(s, k + 1) == k + 1 + |blanks| && StartsWith(s[k + 1 + |blanks|..], word)
  {
    var w, j := ['✅'] + blanks + word, k + 1 + |blanks|;
    assert forall n | 0 <= n < |w| :: s[k + n] == s[k..][n] == w[n];
    forall n | k + 1 <= n < j
      ensures IsSpace(s[n])
    {
      assert s[n] == w[n - k] == blanks[n - k - 1] && blanks[n - k - 1] in blanks;
    }
    assert s[j] == w[j - k] == word[0];
    SkipSpacesStops(s, k + 1, j);
    assert forall n | 0 <= n < |word| :: s[j..][n] == s[j + n] == w[j - k + n] == word[n];
  }

  lemma MarkedIsMark(s: string, k: nat)
    requires Marked(s, k)
    ensures exists blanks :: MarkAt(s, k, blanks)
  {
    var j := SkipSpaces(s, k + 1);
    var blanks := s[k + 1..j];
    assert s[k..] == ['✅'] + blanks + s[j..];
    assert MarkAt(s, k, blanks);
  }

  lemma MarkIff(s: string, k: nat)
    ensures Marked(s, k) <==> exists blanks :: MarkAt(s, k, blanks)
  {
    if Marked(s, k) {
      MarkedIsMark(s, k);
    }
    if blanks :| MarkAt(s, k, blanks) {
      BlanksThenWord(s, k, blanks, "active");
    }
  }

  ghost predicate MarkedOnLine(s: string, i: nat, k: nat) {
    i <= k && Marked(s, k) && forall j | i <= j < k :: !IsLineTerminator(s[j])
  }

  lemma {:induction false} ActiveFromMarked(s: string, i: nat) returns (k: nat)
    requires ActiveFrom(s, i)
    ensures MarkedOnLine(s, i, k)
    decreases |s| - i
  {
    if Marked(s, i) {
      k := i;
    } else {
      k := ActiveFromMarked(s, i + 1);
    }
  }

  lemma {:induction false} MarkedActiveFrom(s: string, i: nat, k: nat)
    requires MarkedOnLine(s, i, k)
    ensures ActiveFrom(s, i)
    decreases k - i
  {
    if i < k {
      MarkedActiveFrom(s, i + 1, k);
    }
  }

  /** From `i` the text reaches, without a line terminator, a check mark, blanks and the word. */
  ghost predicate Active(s: string, i: nat) {
    exists k, blanks :: i <= k && MarkAt(s, k, blanks) && forall j | i <= j < k :: !IsLineTerminator(s[j])
  }

  lemma ActiveIff(s: string, i: nat)
    ensures ActiveFrom(s, i) <==> Active(s, i)
  {
    if ActiveFrom(s, i) {
      var k := ActiveFromMarked(s, i);
      MarkIff(s, k);
      var blanks :| MarkAt(s, k, blanks);
    }
    if k, blanks :| i <= k && MarkAt(s, k, blanks) && forall j | i <= j < k :: !IsLineTerminator(s[j]) {
      MarkIff(s, k);
      MarkedActiveFrom(s, i, k);
    }
  }

  // ----- the leftmost match -----

  /** A match at `i`, without or with the mark after it. */
  ghost predicate Hit(s: string, i: nat, name: string, active: bool) {
    exists end :: Matches(s, i, name, end) && (active ==> Active(s, end))
  }

  ghost predicate Leftmost(s: string, from: nat, i: nat, name: string, active: bool) {
    from <= i && Hit(s, i, name, active) && forall j: nat, other | from <= j < i :: !Hit(s, j, other, active)
  }

  lemma HitIff(s: string, i: nat, name: string, active: bool)
    ensures Hit(s, i, name, active)
       <==> MatchAt(s, i).Some? && MatchAt(s, i).value.name == name && (active ==> ActiveFrom(s, MatchAt(s, i).value.end))
  {
    if end :| Matches(s, i, name, end) && (active ==> Active(s, end)) {
      MatchAtIff(s, i, name, end);
      ActiveIff(s, end);
    }
    var m := MatchAt(s, i);
    if m.Some? && m.value.name == name {
      MatchAtIff(s, i, name, m.value.end);
      ActiveIff(s, m.value.end);
    }
  }

  function Search(s: string, i: nat, active: bool): Option<string> {
    if active then ActiveMatch(s, i) else FirstMatch(s, i, false)
  }

  lemma {:induction false} SearchIff(s: string, from: nat, name: string, active: bool)
    requires from <= |s|
    ensures Search(s, from, active) == Some(name) <==> exists i: nat :: Leftmost(s, from, i, name, active)
    decreases |s| - from
  {
    if from < |s| {
      var m, next := MatchAt(s, from), from + 1;
      SearchIff(s, next, name, active);
      HitIff(s, from, name, active);
      if m.Some? && (active ==> ActiveFrom(s, m.value.end)) {
        HitIff(s, from, m.value.name, active);
        assert Leftmost(s, from, from, m.value.name, active);
      } else {
        forall other
          ensures !Hit(s, from, other, active)
        {
          HitIff(s, from, other, active);
        }
        LeftmostLater(s, from, next, name, active);
      }
    } else {
      forall i: nat | from <= i
        ensures !Hit(s, i, name, active)
      {
        HitIff(s, i, name, active);
      }
    }
  }

  lemma LeftmostLater(s: string, from: nat, next: nat, name: string, active: bool)
    requires next == from + 1 && forall other :: !Hit(s, from, other, active)
    ensures (exists i: nat :: Leftmost(s, from, i, name, active)) <==> exists i: nat :: Leftmost(s, next, i, name, active)
  {
    if i: nat :| Leftmost(s, from, i, name, active) {
      assert i != from;
      assert Leftmost(s, next, i, name, active);
    }
    if i: nat :| Leftmost(s, next, i, name, active) {
      assert Leftmost(s, from, i, name, active);
    }
  }

  /** A line of the section contributes the name of its leftmost match, and of its leftmost match that is marked active. */
  lemma NamesAre(s: string, name: string)
    ensures name in Names(s) <==> exists i: nat, active :: Leftmost(s, 0, i, name, active)
  {
    SearchIff(s, 0, name, false);
    SearchIff(s, 0, name, true);
    TeeAlternativeIsDead(s, 0);
    if i: nat, active :| Leftmost(s, 0, i, name, active) {
      assert Search(s, 0, active) == Some(name);
    }
  }
}
