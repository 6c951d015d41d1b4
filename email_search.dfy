/**
 * How many ways the name group of the schema's email pattern,
 * `\w+([.-]?\w+)*`, can match a string. JavaScript's regular expressions
 * are matched by backtracking: before a match is reported as failed, every
 * way the group can match is tried, each followed by the rest of the
 * pattern.
 *
 * The separator in `([.-]?\w+)*` is optional, so a run of word characters
 * splits into pieces in many ways. `RunWays` shows there are 2^(n-1) ways
 * for a run of n. With the separator required, `\w+([.-]\w+)*` accepts the
 * same strings (`StrictNameCorrect`), and each of them in at most one way.
 */
module EmailSearch {
  import opened Patterns

  /** The repeated piece: `[.-]?\w+` as written, or `[.-]\w+` with the separator required. */
  datatype Separator = OptionalSep | RequiredSep

  ghost predicate PieceOf(sep: Separator, s: string) {
    match sep
    case OptionalSep => PieceRe(s)
    case RequiredSep => |s| > 1 && IsSep(s[0]) && WordsRe(s[1..])
  }

  /** `(piece)*` */
  ghost predicate RepRe(sep: Separator, s: string)
    decreases |s|
  {
    s == [] || exists k :: 0 < k <= |s| && PieceOf(sep, s[..k]) && RepRe(sep, s[k..])
  }

  /** `\w+([.-]\w+)*`, the name group with the separator required. */
  ghost predicate StrictNameRe(s: string) {
    exists k :: 0 < k <= |s| && WordsRe(s[..k]) && RepRe(RequiredSep, s[k..])
  }

  /** The first part of a match: `\w+` for the whole group (`wordHead`), else one piece. */
  ghost predicate First(sep: Separator, wordHead: bool, s: string) {
    if wordHead then WordsRe(s) else PieceOf(sep, s)
  }

  /** The number of ways `(piece)*` matches all of `s`. */
  ghost function Ways(sep: Separator, s: string): nat
    decreases |s|, |s| + 1
  {
    if s == [] then 1 else SplitWays(sep, false, s, 1)
  }

  /** The number of ways the whole name group matches all of `s`. */
  ghost function NameWays(sep: Separator, s: string): nat {
    SplitWays(sep, true, s, 1)
  }

  /** The ways of matching `s` whose first part ends at `k` or later. */
  ghost function SplitWays(sep: Separator, wordHead: bool, s: string, k: nat): nat
    requires 1 <= k
    decreases |s|, |s| + 1 - k
  {
    if k > |s| then 0
    else (if First(sep, wordHead, s[..k]) then Ways(sep, s[k..]) else 0) + SplitWays(sep, wordHead, s, k + 1)
  }

  // ---------------------------------------------------------------------
  // The counts count matches

  lemma {:induction false} WaysMatch(sep: Separator, s: string)
    ensures Ways(sep, s) > 0 <==> RepRe(sep, s)
    decreases |s|, |s| + 1
  {
    if s != [] {
      SplitWaysMatch(sep, false, s, 1);
    }
  }

  lemma {:induction false} SplitWaysMatch(sep: Separator, wordHead: bool, s: string, k: nat)
    requires 1 <= k
    ensures SplitWays(sep, wordHead, s, k) > 0 <==>
      exists j :: k <= j <= |s| && First(sep, wordHead, s[..j]) && RepRe(sep, s[j..])
    decreases |s|, |s| + 1 - k
  {
    if k <= |s| {
      WaysMatch(sep, s[k..]);
      SplitWaysMatch(sep, wordHead, s, k + 1);
    }
  }

  /** `(piece)*` with the optional separator is the `([.-]?\w+)*` of `Patterns`. */
  lemma {:induction false} PiecesReIsRep(s: string)
    ensures PiecesRe(s) <==> RepRe(OptionalSep, s)
    decreases |s|
  {
    forall k | 0 < k <= |s|
      ensures PiecesRe(s[k..]) <==> RepRe(OptionalSep, s[k..])
    {
      PiecesReIsRep(s[k..]);
    }
  }

  /** The name group matches `s` in some way exactly when `NameRe` holds. */
  lemma NameWaysMatch(s: string)
    ensures NameWays(OptionalSep, s) > 0 <==> NameRe(s)
  {
    SplitWaysMatch(OptionalSep, true, s, 1);
    forall k | 0 < k <= |s|
      ensures PiecesRe(s[k..]) <==> RepRe(OptionalSep, s[k..])
    {
      PiecesReIsRep(s[k..]);
    }
  }

  // ---------------------------------------------------------------------
  // As written: a run of word characters has exponentially many matches

  /** A string of word characters only. */
  ghost predicate IsRun(s: string) {
    forall i :: 0 <= i < |s| ==> IsWordChar(s[i])
  }

  function Pow2(n: nat): nat {
    if n == 0 then 1 else 2 * Pow2(n - 1)
  }

  lemma {:induction false} RunSplitWays(wordHead: bool, s: string, k: nat)
    requires IsRun(s) && 1 <= k <= |s|
    ensures SplitWays(OptionalSep, wordHead, s, k) == Pow2(|s| - k)
    decreases |s|, |s| - k
  {
    assert WordsRe(s[..k]) by {
      assert forall i :: 0 <= i < k ==> s[..k][i] == s[i];
    }
    assert First(OptionalSep, wordHead, s[..k]);
    var t := s[k..];
    if k == |s| {
      assert t == [];
      assert SplitWays(OptionalSep, wordHead, s, k + 1) == 0;
    } else {
      assert IsRun(t) by {
        assert forall i :: 0 <= i < |t| ==> t[i] == s[k + i];
      }
      RunSplitWays(false, t, 1);
      RunSplitWays(wordHead, s, k + 1);
    }
  }

  /** `([.-]?\w+)*` and the whole group each match a run of n word characters in 2^(n-1) ways. */
  lemma RunWays(s: string)
    requires IsRun(s) && |s| > 0
    ensures Ways(OptionalSep, s) == Pow2(|s| - 1)
    ensures NameWays(OptionalSep, s) == Pow2(|s| - 1)
  {
    RunSplitWays(false, s, 1);
    RunSplitWays(true, s, 1);
  }

  /** `n` copies of `a`. */
  function Run(n: nat): (r: string)
    ensures |r| == n && forall i :: 0 <= i < n ==> r[i] == 'a'
  {
    seq(n, _ => 'a')
  }

  /**
   * The address `a@` + n copies of `a` + `.aaaa` does not match the email
   * pattern, since its last label has four characters. Yet the name group
   * matches the run of n characters after the `@` in 2^(n-1) ways, and a
   * backtracking engine tries each of them before it reports the failure.
   */
  lemma SlowInputRejected(n: nat)
    requires n > 0
    ensures !EmailRe("a@" + Run(n) + ".aaaa")
    ensures NameWays(OptionalSep, Run(n)) == Pow2(n - 1)
  {
    var s := "a@" + Run(n) + ".aaaa";
    assert |s| == n + 7;
    assert forall m :: 0 <= m < |s| && m != 1 ==> s[m] != '@' by {
      forall m | 0 <= m < |s| && m != 1 ensures s[m] != '@' {
        if 2 <= m < n + 2 {
          assert s[m] == Run(n)[m - 2];
        }
      }
    }
    assert !MatchesEmail(s);
    EmailReIff(s);
    assert IsRun(Run(n));
    RunWays(Run(n));
  }

  // ---------------------------------------------------------------------
  // Corrected: the separator required

  /** A required-separator match of a non-empty string starts with the separator. */
  lemma {:induction false} StartsWithSep(s: string, k: nat)
    requires 1 <= k && SplitWays(RequiredSep, false, s, k) > 0
    ensures |s| > 0 && IsSep(s[0])
    decreases |s| + 1 - k
  {
    if !PieceOf(RequiredSep, s[..k]) {
      StartsWithSep(s, k + 1);
    } else {
      assert s[..k][0] == s[0];
    }
  }

  /** No first part can end after a separator at `j`. */
  lemma {:induction false} NoSplitAfterSep(wordHead: bool, s: string, j: nat, k: nat)
    requires 1 <= j < k && j < |s| && IsSep(s[j])
    ensures SplitWays(RequiredSep, wordHead, s, k) == 0
    decreases |s| + 1 - k
  {
    if k <= |s| {
      var p := s[..k];
      assert p[j] == s[j];
      if !wordHead {
        assert p[1..][j - 1] == s[j];
      }
      assert !First(RequiredSep, wordHead, p);
      NoSplitAfterSep(wordHead, s, j, k + 1);
    }
  }

  lemma {:induction false} OneSplit(wordHead: bool, s: string, k: nat)
    requires 1 <= k
    ensures SplitWays(RequiredSep, wordHead, s, k) <= 1
    decreases |s|, |s| + 1 - k
  {
    if k <= |s| {
      var t := s[k..];
      if First(RequiredSep, wordHead, s[..k]) && Ways(RequiredSep, t) > 0 {
        if t != [] {
          OneSplit(false, t, 1);
          StartsWithSep(t, 1);
          assert s[k] == t[0];
          NoSplitAfterSep(wordHead, s, k, k + 1);
        }
      } else {
        OneSplit(wordHead, s, k + 1);
      }
    }
  }

  /** The first index at or after `i` that holds no word character, or the end. */
  function WordEnd(s: string, i: nat): (r: nat)
    requires i <= |s|
    ensures i <= r <= |s| && (r < |s| ==> !IsWordChar(s[r]))
    ensures forall m :: i <= m < r ==> IsWordChar(s[m])
    decreases |s| - i
  {
    if i == |s| || !IsWordChar(s[i]) then i else WordEnd(s, i + 1)
  }

  /** A required-separator piece sequence for every `IsPieces` string that starts with a separator. */
  lemma {:induction false} StrictRepComplete(t: string)
    requires IsPieces(t) && (t == [] || IsSep(t[0]))
    ensures RepRe(RequiredSep, t)
    decreases |t|
  {
    if t != [] {
      assert |t| > 1 && IsWordChar(t[1]);
      var j := WordEnd(t, 1);
      var p, u := t[..j], t[j..];
      assert WordsRe(p[1..]) by {
        assert forall m :: 0 <= m < |p[1..]| ==> p[1..][m] == t[m + 1];
      }
      assert PieceOf(RequiredSep, p);
      assert forall m :: 0 <= m < |u| ==> u[m] == t[m + j];
      assert u != [] ==> u[|u| - 1] == t[|t| - 1];
      StrictRepComplete(u);
      assert 0 < j <= |t| && PieceOf(RequiredSep, t[..j]) && RepRe(RequiredSep, t[j..]);
    }
  }

  lemma {:induction false} RequiredIsOptional(s: string)
    requires RepRe(RequiredSep, s)
    ensures RepRe(OptionalSep, s)
    decreases |s|
  {
    if s != [] {
      var k :| 0 < k <= |s| && PieceOf(RequiredSep, s[..k]) && RepRe(RequiredSep, s[k..]);
      RequiredIsOptional(s[k..]);
      assert PieceOf(OptionalSep, s[..k]);
    }
  }

  lemma StrictNameComplete(s: string)
    requires IsName(s)
    ensures StrictNameRe(s)
  {
    var i := WordEnd(s, 0);
    assert i > 0;
    var u := s[i..];
    assert WordsRe(s[..i]) by {
      assert forall m :: 0 <= m < i ==> s[..i][m] == s[m];
    }
    assert forall m :: 0 <= m < |u| ==> u[m] == s[m + i];
    assert u != [] ==> u[|u| - 1] == s[|s| - 1];
    StrictRepComplete(u);
  }

  /**
   * `\w+([.-]\w+)*` accepts exactly the strings the schema's name group
   * `\w+([.-]?\w+)*` accepts, and each of them in at most one way.
   */
  lemma StrictNameCorrect(s: string)
    ensures StrictNameRe(s) <==> NameRe(s)
    ensures NameWays(RequiredSep, s) <= 1
    ensures NameWays(RequiredSep, s) == 1 <==> StrictNameRe(s)
  {
    NameReIff(s);
    if StrictNameRe(s) {
      var k :| 0 < k <= |s| && WordsRe(s[..k]) && RepRe(RequiredSep, s[k..]);
      RequiredIsOptional(s[k..]);
      PiecesReIsRep(s[k..]);
      assert NameRe(s);
    }
    if IsName(s) {
      StrictNameComplete(s);
    }
    OneSplit(true, s, 1);
    SplitWaysMatch(RequiredSep, true, s, 1);
  }

  /** With the separator required, the run of the slow input is matched in exactly one way. */
  lemma SlowInputCorrected(n: nat)
    requires n > 0
    ensures NameWays(RequiredSep, Run(n)) == 1
  {
    assert IsName(Run(n));
    NameReIff(Run(n));
    StrictNameCorrect(Run(n));
  }
}
