/**
 * The two regular expressions of the schema, as JavaScript (no `u` flag,
 * no `m` flag) reads them:
 *
 *   email    ^\w+([.-]?\w+)*@\w+([.-]?\w+)*(\.\w{2,3})+$
 *   website  ^https?:\/\/.+
 *
 * For the email pattern there are two definitions: `EmailRe` follows the
 * pattern's structure group by group (each `*`, `+` and concatenation is an
 * existential over a split point), and `MatchesEmail` is a direct,
 * executable description of the same language. `EmailReIff` proves them
 * equal.
 */
module Patterns {
  import JsString

  /** `\w`: ASCII letters, digits and underscore. */
  predicate IsWordChar(c: char) {
    ('a' <= c <= 'z') || ('A' <= c <= 'Z') || ('0' <= c <= '9') || c == '_'
  }

  /** `[.-]` */
  predicate IsSep(c: char) {
    c == '.' || c == '-'
  }

  // ---------------------------------------------------------------------
  // The pattern, group by group

  /** `\w+` */
  ghost predicate WordsRe(s: string) {
    |s| > 0 && forall i :: 0 <= i < |s| ==> IsWordChar(s[i])
  }

  /** `[.-]?\w+` */
  ghost predicate PieceRe(s: string) {
    WordsRe(s) || (|s| > 1 && IsSep(s[0]) && WordsRe(s[1..]))
  }

  /** `([.-]?\w+)*` */
  ghost predicate PiecesRe(s: string)
    decreases |s|
  {
    s == [] || exists k :: 0 < k <= |s| && PieceRe(s[..k]) && PiecesRe(s[k..])
  }

  /** `\w+([.-]?\w+)*`, the shape of the local part and of the domain's head */
  ghost predicate NameRe(s: string) {
    exists k :: 0 < k <= |s| && WordsRe(s[..k]) && PiecesRe(s[k..])
  }

  /** `\.\w{2,3}` */
  ghost predicate TldRe(s: string) {
    (|s| == 3 || |s| == 4) && s[0] == '.' && WordsRe(s[1..])
  }

  /** `(\.\w{2,3})+` */
  ghost predicate TldsRe(s: string)
    decreases |s|
  {
    exists k :: 0 < k <= |s| && TldRe(s[..k]) && (k == |s| || TldsRe(s[k..]))
  }

  /** `\w+([.-]?\w+)*(\.\w{2,3})+`, everything after the `@` */
  ghost predicate DomainRe(s: string) {
    exists j :: 0 < j <= |s| && NameRe(s[..j]) && TldsRe(s[j..])
  }

  /** The whole email pattern, anchored at both ends. */
  ghost predicate EmailRe(s: string) {
    exists i :: 0 <= i < |s| && NameRe(s[..i]) && s[i] == '@' && DomainRe(s[i + 1..])
  }

  // ---------------------------------------------------------------------
  // The same language, described directly

  /**
   * Word characters and separators only, starting and ending with a word
   * character, and never two separators in a row.
   */
  predicate IsName(s: string) {
    && |s| > 0 && IsWordChar(s[0]) && IsWordChar(s[|s| - 1])
    && (forall i :: 0 <= i < |s| ==> IsWordChar(s[i]) || IsSep(s[i]))
    && (forall i :: 0 <= i < |s| - 1 ==> IsWordChar(s[i]) || IsWordChar(s[i + 1]))
  }

  /** The last label: a `.` at `k` followed by 2 or 3 word characters up to the end. */
  predicate EndsWithTld(s: string, k: int) {
    0 <= k < |s| && s[k] == '.' && (|s| - k == 3 || |s| - k == 4)
    && forall m :: k < m < |s| ==> IsWordChar(s[m])
  }

  /** A name whose last label is introduced by `.` and has 2 or 3 characters. */
  predicate IsDomain(s: string) {
    IsName(s) && exists k :: 0 <= k < |s| && EndsWithTld(s, k)
  }

  /** What the schema's email pattern accepts. */
  predicate MatchesEmail(s: string) {
    exists i :: 0 <= i < |s| && s[i] == '@' && IsName(s[..i]) && IsDomain(s[i + 1..])
  }

  // ---------------------------------------------------------------------
  // The two descriptions agree

  /** What `([.-]?\w+)*` allows: separators never doubled, a word character last. */
  ghost predicate IsPieces(s: string) {
    && (forall i :: 0 <= i < |s| ==> IsWordChar(s[i]) || IsSep(s[i]))
    && (forall i :: 0 <= i < |s| - 1 ==> IsWordChar(s[i]) || IsWordChar(s[i + 1]))
    && (|s| > 0 ==> IsWordChar(s[|s| - 1]))
  }

  /** One `[.-]?\w+`: an optional separator, then word characters only. */
  lemma PieceChars(p: string)
    requires PieceRe(p)
    ensures |p| > 0 && (IsWordChar(p[0]) || IsSep(p[0])) && IsWordChar(p[|p| - 1])
    ensures forall i :: 0 < i < |p| ==> IsWordChar(p[i])
  {
    if !WordsRe(p) {
      assert forall i :: 0 < i < |p| ==> p[i] == p[1..][i - 1];
    }
  }

  lemma {:induction false} PiecesSound(s: string)
    requires PiecesRe(s)
    ensures IsPieces(s)
    decreases |s|
  {
    if s != [] {
      var k :| 0 < k <= |s| && PieceRe(s[..k]) && PiecesRe(s[k..]);
      PiecesSound(s[k..]);
      var p, q := s[..k], s[k..];
      PieceChars(p);
      assert forall i :: 0 <= i < k ==> s[i] == p[i];
      assert forall i :: k <= i < |s| ==> s[i] == q[i - k];
    }
  }

  lemma {:induction false} PiecesComplete(s: string)
    requires IsPieces(s)
    ensures PiecesRe(s)
    decreases |s|
  {
    if s != [] {
      var k := if IsWordChar(s[0]) then 1 else 2;
      assert k == 2 ==> |s| >= 2 && IsWordChar(s[1]);
      var q := s[k..];
      assert forall i :: 0 <= i < |q| ==> q[i] == s[i + k];
      assert IsPieces(q);
      PiecesComplete(q);
      assert PieceRe(s[..k]) by {
        if k == 2 { assert s[..k][1..] == [s[1]]; }
      }
    }
  }

  lemma NameReSound(s: string)
    requires NameRe(s)
    ensures IsName(s)
  {
    var k :| 0 < k <= |s| && WordsRe(s[..k]) && PiecesRe(s[k..]);
    PiecesSound(s[k..]);
    assert forall i :: 0 <= i < k ==> s[i] == s[..k][i];
    assert forall i :: k <= i < |s| ==> s[i] == s[k..][i - k];
  }

  lemma NameReComplete(s: string)
    requires IsName(s)
    ensures NameRe(s)
  {
    var q := s[1..];
    assert forall i :: 0 <= i < |q| ==> q[i] == s[i + 1];
    PiecesComplete(q);
    assert WordsRe(s[..1]);
    assert s[1..] == q;
  }

  /** `\w+([.-]?\w+)*` is exactly `IsName`. */
  lemma NameReIff(s: string)
    ensures NameRe(s) <==> IsName(s)
  {
    if NameRe(s) {
      NameReSound(s);
    }
    if IsName(s) {
      NameReComplete(s);
    }
  }

  /** What `(\.\w{2,3})+` allows, in the terms `IsDomain` uses. */
  ghost predicate IsTlds(s: string) {
    |s| > 1 && s[0] == '.' && IsWordChar(s[1]) && IsPieces(s)
    && exists k :: 0 <= k < |s| && EndsWithTld(s, k)
  }

  lemma {:induction false} TldsSound(s: string)
    requires TldsRe(s)
    ensures IsTlds(s)
    decreases |s|
  {
    var k :| 0 < k <= |s| && TldRe(s[..k]) && (k == |s| || TldsRe(s[k..]));
    var p := s[..k];
    assert forall i :: 0 < i < k ==> IsWordChar(s[i]) by {
      forall i | 0 < i < k ensures IsWordChar(s[i]) {
        assert s[i] == p[1..][i - 1];
      }
    }
    if k == |s| {
      assert EndsWithTld(s, 0);
    } else {
      var q := s[k..];
      TldsSound(q);
      assert forall i :: k <= i < |s| ==> s[i] == q[i - k];
      var m :| 0 <= m < |q| && EndsWithTld(q, m);
      assert EndsWithTld(s, k + m);
    }
  }

  lemma DomainReSound(s: string)
    requires DomainRe(s)
    ensures IsDomain(s)
  {
    var j :| 0 < j <= |s| && NameRe(s[..j]) && TldsRe(s[j..]);
    DomainSplit(s, j);
  }

  lemma DomainSplit(s: string, j: int)
    requires 0 < j <= |s| && NameRe(s[..j]) && TldsRe(s[j..])
    ensures IsDomain(s)
  {
    var p, q := s[..j], s[j..];
    NameReSound(p);
    TldsSound(q);
    assert s == p + q;
    NameThenTlds(p, q);
  }

  /** A name followed by one or more labels of 2 or 3 characters is a domain. */
  lemma NameThenTlds(p: string, q: string)
    requires IsName(p) && IsTlds(q)
    ensures IsDomain(p + q)
  {
    var s := p + q;
    assert forall i :: 0 <= i < |p| ==> s[i] == p[i];
    assert forall i :: |p| <= i < |s| ==> s[i] == q[i - |p|];
    var m :| 0 <= m < |q| && EndsWithTld(q, m);
    assert EndsWithTld(s, |p| + m);
  }

  lemma DomainReComplete(s: string)
    requires IsDomain(s)
    ensures DomainRe(s)
  {
    var k :| 0 <= k < |s| && EndsWithTld(s, k);
    assert 0 < k && IsWordChar(s[k - 1]);
    var p, q := s[..k], s[k..];
    assert forall i :: 0 <= i < k ==> p[i] == s[i];
    assert IsName(p);
    NameReComplete(p);
    assert TldRe(q[..|q|]) by {
      assert q[..|q|] == q;
      assert forall i :: 0 <= i < |q| - 1 ==> q[1..][i] == s[k + 1 + i];
    }
    assert TldsRe(q);
    assert s[..k] == p && s[k..] == q;
  }

  /** Everything after the `@`: the pattern's groups agree with `IsDomain`. */
  lemma DomainReIff(s: string)
    ensures DomainRe(s) <==> IsDomain(s)
  {
    if DomainRe(s) {
      DomainReSound(s);
    }
    if IsDomain(s) {
      DomainReComplete(s);
    }
  }

  /** The schema's email pattern accepts exactly what `MatchesEmail` describes. */
  lemma EmailReIff(s: string)
    ensures EmailRe(s) <==> MatchesEmail(s)
  {
    if EmailRe(s) {
      var i :| 0 <= i < |s| && NameRe(s[..i]) && s[i] == '@' && DomainRe(s[i + 1..]);
      NameReIff(s[..i]);
      DomainReIff(s[i + 1..]);
    }
    if MatchesEmail(s) {
      var i :| 0 <= i < |s| && s[i] == '@' && IsName(s[..i]) && IsDomain(s[i + 1..]);
      NameReIff(s[..i]);
      DomainReIff(s[i + 1..]);
    }
  }

  /**
   * An accepted email has exactly one `@`; the part before it is non-empty
   * and neither starts nor ends with `.` or `-`; the whole address ends
   * with `.` and two or three word characters.
   */
  lemma AcceptedEmailShape(s: string)
    requires MatchesEmail(s)
    ensures multiset(s)['@'] == 1
    ensures exists i :: 0 < i < |s| && s[i] == '@' && !IsSep(s[0]) && !IsSep(s[i - 1])
    ensures exists k :: 0 <= k < |s| && EndsWithTld(s, k)
  {
    var i :| 0 <= i < |s| && s[i] == '@' && IsName(s[..i]) && IsDomain(s[i + 1..]);
    OneAt(s, i);
    LocalPartEnds(s, i);
    var k := TldOfDomain(s, i);
  }

  /** The part before the `@` starts and ends with a word character. */
  lemma LocalPartEnds(s: string, i: int)
    requires 0 <= i < |s| && IsName(s[..i])
    ensures 0 < i && !IsSep(s[0]) && !IsSep(s[i - 1])
  {
    assert s[0] == s[..i][0] && s[i - 1] == s[..i][i - 1];
  }

  /** The domain's last label is the address's last label. */
  lemma TldOfDomain(s: string, i: int) returns (k: int)
    requires 0 <= i < |s| && IsDomain(s[i + 1..])
    ensures 0 <= k < |s| && EndsWithTld(s, k)
  {
    var d := s[i + 1..];
    var m :| 0 <= m < |d| && EndsWithTld(d, m);
    assert forall j :: 0 <= j < |d| ==> d[j] == s[i + 1 + j];
    k := i + 1 + m;
  }

  /** A name holds no `@`, so an `@` between two names is the only one. */
  lemma OneAt(s: string, i: int)
    requires 0 <= i < |s| && s[i] == '@' && IsName(s[..i]) && IsName(s[i + 1..])
    ensures multiset(s)['@'] == 1
  {
    var a, d := s[..i], s[i + 1..];
    assert s == a + [s[i]] + d;
    assert '@' !in a by {
      forall j | 0 <= j < |a| ensures a[j] != '@' { }
    }
    assert '@' !in d by {
      forall j | 0 <= j < |d| ensures d[j] != '@' { }
    }
    assert multiset(s) == multiset(a) + multiset{'@'} + multiset(d);
  }

  // ---------------------------------------------------------------------
  // The website pattern

  /**
   * `^https?:\/\/.+`: `http://` or `https://`, then at least one character
   * that `.` matches (anything but a line terminator). The pattern is not
   * anchored at the end, so whatever follows is irrelevant.
   */
  predicate MatchesWebsite(s: string) {
    || (|s| > 7 && s[..7] == "http://" && !JsString.IsLineTerminator(s[7]))
    || (|s| > 8 && s[..8] == "https://" && !JsString.IsLineTerminator(s[8]))
  }

  /** Only the start of the value matters: an accepted value stays accepted when extended. */
  lemma WebsiteIgnoresSuffix(s: string, t: string)
    requires MatchesWebsite(s)
    ensures MatchesWebsite(s + t)
  {
    assert (s + t)[..|s|] == s;
    if |s| > 7 && s[..7] == "http://" && !JsString.IsLineTerminator(s[7]) {
      assert (s + t)[..7] == s[..7] && (s + t)[7] == s[7];
    } else {
      assert (s + t)[..8] == s[..8] && (s + t)[8] == s[8];
    }
  }

  /** A scheme with nothing after it, or any other scheme, is rejected. */
  lemma WebsiteSchemeOnlyRejected()
    ensures !MatchesWebsite("https://") && !MatchesWebsite("http://")
    ensures !MatchesWebsite("ftp://x.com") && !MatchesWebsite("http://\nx")
    ensures MatchesWebsite("https://x") && MatchesWebsite("http://x")
  {
    assert "https://"[..7] != "http://" by { assert "https://"[4] == 's'; }
    assert "ftp://x.com"[..7] != "http://" by { assert "ftp://x.com"[0] == 'f'; }
    assert "ftp://x.com"[..8] != "https://" by { assert "ftp://x.com"[0] == 'f'; }
    assert "https://x"[..8] == "https://";
    assert "http://x"[..7] == "http://";
    assert "http://\nx"[7] == '\n';
    assert "http://\nx"[..8] != "https://" by { assert "http://\nx"[4] == ':'; }
  }
}
