/** The file-name wildcards of `read_csv` (crates/ultrasql-core/src/csv.rs). */
module Wildcard {

  /** What a pattern means: `*` is any run of characters, `?` any one, everything else itself. */
  ghost predicate Matches(p: string, t: string)
    decreases |p|
  {
    if p == "" then t == ""
    else if p[0] == '*' then exists k :: 0 <= k <= |t| && Matches(p[1..], t[k..])
    else t != "" && (p[0] == '?' || p[0] == t[0]) && Matches(p[1..], t[1..])
  }

  /** A star-free stretch of pattern fits text of the same length, character by character. */
  predicate Fits(p: string, t: string) {
    |p| == |t| && forall i :: 0 <= i < |p| ==> p[i] != '*' && (p[i] == '?' || p[i] == t[i])
  }

  /** A star-free stretch only matches in one way: at the front. */
  lemma {:induction false} StretchMatchesIff(a: string, p: string, t: string)
    requires forall i :: 0 <= i < |a| ==> a[i] != '*'
    ensures Matches(a + p, t) <==> |a| <= |t| && Fits(a, t[..|a|]) && Matches(p, t[|a|..])
  {
    if a == "" {
      assert a + p == p && t[..0] == "" && t[0..] == t;
    } else if t != "" {
      assert (a + p)[1..] == a[1..] + p;
      StretchMatchesIff(a[1..], p, t[1..]);
      if |a| <= |t| {
        assert t[..|a|] == [t[0]] + t[1..][..|a| - 1];
        assert t[|a|..] == t[1..][|a| - 1..];
        assert a == [a[0]] + a[1..];
      }
    }
  }

  /** A star that matches some later text matches from any earlier position too. */
  lemma StarAbsorbs(p: string, t: string, i: nat, j: nat)
    requires p != "" && p[0] == '*' && i <= j <= |t| && Matches(p, t[j..])
    ensures Matches(p, t[i..])
  {
    var k :| 0 <= k <= |t[j..]| && Matches(p[1..], t[j..][k..]);
    assert t[i..][j - i + k..] == t[j..][k..];
  }

  /** Which matches are left: the pattern after the last star, at or after the star's text position. */
  ghost predicate Remains(p: string, t: string, star: int, starText: nat)
    requires -1 <= star < |p| && starText <= |t|
  {
    if star < 0 then Matches(p, t)
    else exists k :: starText <= k <= |t| && Matches(p[star + 1..], t[k..])
  }

  /** The stretch between the last star and the pattern position fits the text since the star. */
  predicate Tracking(p: string, t: string, star: int, starText: nat, i: nat, j: nat) {
    && -1 <= star < i <= |p| && starText <= j <= |t|
    && (star < 0 ==> starText == 0)
    && (star >= 0 ==> p[star] == '*')
    && Fits(p[star + 1..i], t[starText..j])
  }

  lemma AdvanceKeepsTracking(p: string, t: string, star: int, starText: nat, i: nat, j: nat)
    requires Tracking(p, t, star, starText, i, j) && i < |p| && j < |t|
    requires p[i] != '*' && (p[i] == '?' || p[i] == t[j])
    ensures Tracking(p, t, star, starText, i + 1, j + 1)
  {
    assert p[star + 1..i + 1] == p[star + 1..i] + [p[i]];
    assert t[starText..j + 1] == t[starText..j] + [t[j]];
  }

  /** Matching the stretch at the star's text position is matching the rest at the current one. */
  lemma TrackedMatchIff(p: string, t: string, star: int, starText: nat, i: nat, j: nat)
    requires Tracking(p, t, star, starText, i, j)
    ensures Matches(p[star + 1..], t[starText..]) <==> Matches(p[i..], t[j..])
  {
    var a, u := p[star + 1..i], t[starText..j];
    assert p[star + 1..] == a + p[i..];
    assert t[starText..] == u + t[j..];
    FittingStretch(a, p[i..], u, t[j..]);
  }

  lemma FittingStretch(a: string, p: string, u: string, t: string)
    requires Fits(a, u)
    ensures Matches(a + p, u + t) <==> Matches(p, t)
  {
    StretchMatchesIff(a, p, u + t);
    assert (u + t)[..|a|] == u && (u + t)[|a|..] == t;
  }

  /** Meeting a star: earlier choices of the last star cannot match more than the current one. */
  lemma NewStarSuffices(p: string, t: string, star: int, starText: nat, i: nat, j: nat)
    requires Tracking(p, t, star, starText, i, j) && i < |p| && p[i] == '*'
    ensures Remains(p, t, star, starText) <==> Remains(p, t, i, j)
  {
    TrackedMatchIff(p, t, star, starText, i, j);
    StarRemainsIff(p, t, i, j);
    if star >= 0 && Remains(p, t, star, starText) {
      var k :| starText <= k <= |t| && Matches(p[star + 1..], t[k..]);
      LaterChoiceMatches(p, t, star, starText, i, j, k);
    } else if star < 0 {
      assert p[star + 1..] == p && t[starText..] == t;
    }
  }

  /** At a star, what remains is the pattern from it on. */
  lemma StarRemainsIff(p: string, t: string, i: nat, j: nat)
    requires i < |p| && p[i] == '*' && j <= |t|
    ensures Remains(p, t, i, j) <==> Matches(p[i..], t[j..])
  {
    if Matches(p[i..], t[j..]) {
      var k :| 0 <= k <= |t[j..]| && Matches(p[i..][1..], t[j..][k..]);
      assert t[j..][k..] == t[j + k..];
    }
    if Remains(p, t, i, j) {
      var k :| j <= k <= |t| && Matches(p[i + 1..], t[k..]);
      assert t[j..][k - j..] == t[k..];
    }
  }

  /** A later choice of the last star leaves the new star no more than the current one does. */
  lemma LaterChoiceMatches(p: string, t: string, star: int, starText: nat, i: nat, j: nat, k: nat)
    requires Tracking(p, t, star, starText, i, j) && star >= 0 && i < |p| && p[i] == '*'
    requires starText <= k <= |t| && Matches(p[star + 1..], t[k..])
    ensures Matches(p[i..], t[j..])
  {
    var a := p[star + 1..i];
    assert p[star + 1..] == a + p[i..];
    StretchMatchesIff(a, p[i..], t[k..]);
    assert t[k..][|a|..] == t[k + |a|..];
    StarAbsorbs(p[i..], t, j, k + |a|);
  }

  /** A mismatch rules out the star's text position, and without a star everything. */
  lemma MismatchAdvances(p: string, t: string, star: int, starText: nat, i: nat, j: nat)
    requires Tracking(p, t, star, starText, i, j) && j < |t|
    requires i == |p| || (p[i] != '*' && p[i] != '?' && p[i] != t[j])
    ensures Remains(p, t, star, starText) <==> star >= 0 && starText < |t| && Remains(p, t, star, starText + 1)
  {
    TrackedMatchIff(p, t, star, starText, i, j);
    assert !Matches(p[i..], t[j..]);
    if star < 0 {
      assert p[star + 1..] == p && t[starText..] == t;
    }
  }

  /** At the end of the text only trailing stars may be left. */
  lemma EndOfText(p: string, t: string, star: int, starText: nat, i: nat)
    requires Tracking(p, t, star, starText, i, |t|)
    ensures Remains(p, t, star, starText) <==> Matches(p[i..], "")
  {
    TrackedMatchIff(p, t, star, starText, i, |t|);
    assert t[|t|..] == "";
    if star < 0 {
      assert p[star + 1..] == p && t[starText..] == t;
    } else {
      var a := p[star + 1..i];
      assert p[star + 1..] == a + p[i..];
      forall k | starText <= k <= |t| && Matches(p[star + 1..], t[k..]) ensures k == starText {
        StretchMatchesIff(a, p[i..], t[k..]);
      }
    }
  }

  lemma {:induction false} OnlyStarsMatchEmpty(p: string)
    ensures Matches(p, "") <==> forall i :: 0 <= i < |p| ==> p[i] == '*'
  {
    if p != "" {
      OnlyStarsMatchEmpty(p[1..]);
      var empty := "";
      assert empty[0..] == empty;
      assert Matches(p, empty) <==> p[0] == '*' && Matches(p[1..], empty);
      assert forall i :: 1 <= i < |p| ==> p[i] == p[1..][i - 1];
    }
  }

  lemma TrailingStar(p: string, i: nat)
    requires i < |p| && p[i] == '*'
    ensures Matches(p[i..], "") <==> Matches(p[i + 1..], "")
  {
    OnlyStarsMatchEmpty(p[i..]);
    OnlyStarsMatchEmpty(p[i + 1..]);
    assert p[i..] == [p[i]] + p[i + 1..];
  }

  /** A star is tracked from its own position. */
  lemma StarStaysTracked(p: string, t: string, star: nat, starText: nat)
    requires star < |p| && p[star] == '*' && starText <= |t|
    ensures Tracking(p, t, star, starText, star + 1, starText)
  {
  }

  /**
   The greedy matcher that remembers only its last star answers exactly what the pattern means. It
   terminates because the star moves right, or its text position does, or the reading positions do.
   */
  method WildcardMatch(pattern: string, text: string) returns (r: bool)
    ensures r <==> Matches(pattern, text)
  {
    var i, j := 0, 0;
    var star, starText := -1, 0;
    while j < |text|
      invariant Tracking(pattern, text, star, starText, i, j)
      invariant Matches(pattern, text) <==> Remains(pattern, text, star, starText)
      decreases |pattern| - star, |text| - starText, |pattern| - i + |text| - j
    {
      if i < |pattern| && pattern[i] == '?' {
        AdvanceKeepsTracking(pattern, text, star, starText, i, j);
        i, j := i + 1, j + 1;
      } else if i < |pattern| && pattern[i] == '*' {
        NewStarSuffices(pattern, text, star, starText, i, j);
        StarStaysTracked(pattern, text, i, j);
        star, starText := i, j;
        i := i + 1;
      } else if i < |pattern| && pattern[i] == text[j] {
        AdvanceKeepsTracking(pattern, text, star, starText, i, j);
        i, j := i + 1, j + 1;
      } else {
        MismatchAdvances(pattern, text, star, starText, i, j);
        if star < 0 {
          return false;
        }
        StarStaysTracked(pattern, text, star, starText + 1);
        i := star + 1;
        starText := starText + 1;
        j := starText;
      }
    }
    EndOfText(pattern, text, star, starText, i);
    r := OnlyStarsLeft(pattern, i);
  }

  /** The closing loop: skips stars. */
  method OnlyStarsLeft(pattern: string, from: nat) returns (r: bool)
    requires from <= |pattern|
    ensures r <==> Matches(pattern[from..], "")
  {
    var i := from;
    while i < |pattern| && pattern[i] == '*'
      invariant i <= |pattern|
      invariant Matches(pattern[from..], "") <==> Matches(pattern[i..], "")
    {
      TrailingStar(pattern, i);
      i := i + 1;
    }
    OnlyStarsMatchEmpty(pattern[i..]);
    return i == |pattern|;
  }
}
