/**
 * The three identifier validators of the worker (src/index.js:315-352). Each regular
 * expression is written as a predicate that follows the shape of the pattern, and each
 * predicate's contract states, in plain words, the strings it accepts.
 */
module Validators {
  import opened Strings

  /** The bracket expressions used by the patterns */
  datatype CharClass =
    | Alnum          // [a-zA-Z0-9]
    | AlnumHyphen    // [a-zA-Z0-9-]
    | RepoNameChar   // [a-zA-Z0-9._-]

  predicate IsAsciiLetter(c: char) {
    'a' <= c <= 'z' || 'A' <= c <= 'Z'
  }

  predicate InClass(c: char, k: CharClass) {
    match k
    case Alnum => IsAsciiLetter(c) || IsDigit(c)
    case AlnumHyphen => IsAsciiLetter(c) || IsDigit(c) || c == '-'
    case RepoNameChar => IsAsciiLetter(c) || IsDigit(c) || c == '.' || c == '_' || c == '-'
  }

  /** Every character of `s` is in the class, checked one character at a time */
  predicate AllIn(s: string, k: CharClass) {
    s == [] || (InClass(s[0], k) && AllIn(s[1..], k))
  }

  lemma {:induction false} AllInIff(s: string, k: CharClass)
    ensures AllIn(s, k) <==> forall i :: 0 <= i < |s| ==> InClass(s[i], k)
  {
    if s != [] {
      AllInIff(s[1..], k);
      assert forall i :: 1 <= i < |s| ==> s[i] == s[1..][i - 1];
    }
  }

  /** `k{lo,hi}` matched against the whole of `s` */
  predicate Repeat(s: string, k: CharClass, lo: nat, hi: nat)
    ensures Repeat(s, k, lo, hi) <==> lo <= |s| <= hi && forall i :: 0 <= i < |s| ==> InClass(s[i], k)
  {
    AllInIff(s, k);
    lo <= |s| <= hi && AllIn(s, k)
  }

  /**
   * `^[a-zA-Z0-9]([a-zA-Z0-9-]{0,37}[a-zA-Z0-9])?$`. The anchors leave one way to match:
   * the first character against the leading class, and either nothing more or a group
   * whose final character is the last character of `s`.
   */
  predicate UsernamePattern(s: string)
    ensures UsernamePattern(s) <==>
      && 1 <= |s| <= 39
      && (forall i :: 0 <= i < |s| ==> InClass(s[i], AlnumHyphen))
      && InClass(s[0], Alnum)
      && InClass(s[|s| - 1], Alnum)
  {
    assert forall i :: 1 <= i < |s| ==> s[i] == s[1..][i - 1];
    |s| >= 1 && InClass(s[0], Alnum) && UsernameGroup(s[1..])
  }

  /** `([a-zA-Z0-9-]{0,37}[a-zA-Z0-9])?` matched against the whole of `t` */
  predicate UsernameGroup(t: string)
    ensures UsernameGroup(t) <==>
      t == [] ||
      (&& |t| <= 38
       && (forall i :: 0 <= i < |t| ==> InClass(t[i], AlnumHyphen))
       && InClass(t[|t| - 1], Alnum))
  {
    t == [] || (Repeat(t[..|t| - 1], AlnumHyphen, 0, 37) && InClass(t[|t| - 1], Alnum))
  }

  // ---------- the rules in plain words ----------

  predicate NoDoubleHyphen(s: string) {
    forall i :: 0 <= i < |s| - 1 ==> !(s[i] == '-' && s[i + 1] == '-')
  }

  /** 1 to 39 ASCII letters, digits and hyphens, neither first nor last a hyphen, no two hyphens in a row */
  predicate UsernameRule(s: string) {
    && 1 <= |s| <= 39
    && (forall i :: 0 <= i < |s| ==> IsAsciiLetter(s[i]) || IsDigit(s[i]) || s[i] == '-')
    && s[0] != '-'
    && s[|s| - 1] != '-'
    && NoDoubleHyphen(s)
  }

  /** 1 to 100 characters, each an ASCII letter, a digit, `.`, `_` or `-` */
  predicate RepoNameRule(s: string) {
    && 1 <= |s| <= 100
    && forall i :: 0 <= i < |s| ==> IsAsciiLetter(s[i]) || IsDigit(s[i]) || s[i] in "._-"
  }

  lemma IncludesDoubleHyphen(s: string)
    ensures Includes(s, "--") <==> !NoDoubleHyphen(s)
  {
    if Includes(s, "--") {
      var i := IndexOf(s, "--").value;
      assert s[i..i + 2] == "--";
      assert s[i] == s[i..i + 2][0] && s[i + 1] == s[i..i + 2][1];
    }
    if !NoDoubleHyphen(s) {
      var i :| 0 <= i < |s| - 1 && s[i] == '-' && s[i + 1] == '-';
      assert s[i..i + 2] == "--";
      assert OccursAt(s, "--", i);
    }
  }

  // ---------- the validators ----------

  /** `isValidUsername`: a non-empty string that matches the pattern and contains no `--` */
  predicate IsValidUsername(s: string)
    ensures IsValidUsername(s) <==> UsernameRule(s)
  {
    IncludesDoubleHyphen(s);
    s != "" && UsernamePattern(s) && !Includes(s, "--")
  }

  /** `^[a-zA-Z0-9._-]{1,100}$` */
  predicate RepoNamePattern(s: string)
    ensures RepoNamePattern(s) <==>
      1 <= |s| <= 100 && forall i :: 0 <= i < |s| ==> InClass(s[i], RepoNameChar)
  {
    Repeat(s, RepoNameChar, 1, 100)
  }

  /** `isValidRepoName` */
  predicate IsValidRepoName(s: string)
    ensures IsValidRepoName(s) <==> RepoNameRule(s)
  {
    s != "" && RepoNamePattern(s)
  }

  /** Neither a username nor a repository name contains `/`. */
  lemma NoSlashInNames(s: string)
    ensures IsValidUsername(s) ==> '/' !in s
    ensures IsValidRepoName(s) ==> '/' !in s
  {
  }

  /** Exactly two pieces, an owner and a repository name */
  predicate OwnerAndName(parts: seq<string>) {
    |parts| == 2 && IsValidUsername(parts[0]) && IsValidRepoName(parts[1])
  }

  /** `isValidRepoPath`: split on `/` into exactly an owner and a repository name */
  predicate IsValidRepoPath(p: string)
    ensures IsValidRepoPath(p) <==>
      exists i :: 0 <= i < |p| && p[i] == '/' && IsValidUsername(p[..i]) && IsValidRepoName(p[i + 1..])
  {
    SplitIntoOwnerAndName(p);
    p != "" && OwnerAndName(Split(p, "/"))
  }

  /** Splitting on `/` gives an owner and a repository name iff one `/` separates the two. */
  lemma SplitIntoOwnerAndName(p: string)
    ensures p != "" && OwnerAndName(Split(p, "/")) <==>
      exists i :: 0 <= i < |p| && p[i] == '/' && IsValidUsername(p[..i]) && IsValidRepoName(p[i + 1..])
  {
    if p != "" && OwnerAndName(Split(p, "/")) {
      SplitGivesSeparator(p);
    }
    if exists i :: 0 <= i < |p| && p[i] == '/' && IsValidUsername(p[..i]) && IsValidRepoName(p[i + 1..]) {
      var i :| 0 <= i < |p| && p[i] == '/' && IsValidUsername(p[..i]) && IsValidRepoName(p[i + 1..]);
      SeparatorGivesSplit(p, i);
    }
  }

  lemma SplitGivesSeparator(p: string)
    requires OwnerAndName(Split(p, "/"))
    ensures var i := |Split(p, "/")[0]|;
      i < |p| && p[i] == '/' && IsValidUsername(p[..i]) && IsValidRepoName(p[i + 1..])
  {
    var parts := Split(p, "/");
    SplitJoin(p, "/");
    assert p == parts[0] + "/" + parts[1];
    var i := |parts[0]|;
    assert p[..i] == parts[0] && p[i + 1..] == parts[1];
  }

  lemma SeparatorGivesSplit(p: string, i: nat)
    requires i < |p| && p[i] == '/' && IsValidUsername(p[..i]) && IsValidRepoName(p[i + 1..])
    ensures OwnerAndName(Split(p, "/"))
  {
    NoSlashInNames(p[..i]);
    NoSlashInNames(p[i + 1..]);
    SplitCharInTwo(p, '/');
    var parts := Split(p, "/");
    assert |parts| == 2;
    SplitJoin(p, "/");
    IncludesChar(parts[0], '/');
    IncludesChar(parts[1], '/');
    assert p == parts[0] + "/" + parts[1];
    assert |parts[0]| == i;
    assert parts[0] == p[..i] && parts[1] == p[i + 1..];
  }

  /** The empty string is rejected by every validator. */
  lemma EmptyRejected()
    ensures !IsValidUsername("") && !IsValidRepoName("") && !IsValidRepoPath("")
  {
  }

  /** An accepted repository path holds exactly one `/`. */
  lemma RepoPathHasOneSlash(p: string)
    requires IsValidRepoPath(p)
    ensures exists i :: 0 <= i < |p| && p[i] == '/' && forall j :: 0 <= j < |p| && p[j] == '/' ==> j == i
  {
    var i :| 0 <= i < |p| && p[i] == '/' && IsValidUsername(p[..i]) && IsValidRepoName(p[i + 1..]);
    NoSlashInNames(p[..i]);
    NoSlashInNames(p[i + 1..]);
    forall j | 0 <= j < |p| && p[j] == '/' ensures j == i {
    }
  }

  /** No character of `s` ends a URL path, starts an escape, or is not allowed in a URL. */
  predicate UrlSafe(s: string) {
    forall i :: 0 <= i < |s| ==> s[i] != '?' && s[i] != '#' && s[i] != '%' && s[i] != ' '
  }

  lemma NamesAreUrlSafe(s: string)
    ensures IsValidUsername(s) || IsValidRepoName(s) ==> UrlSafe(s)
  {
  }

  /**
   * A validated parameter holds none of the characters `?`, `#`, `%` and space, which in a
   * URL end the path, start an escape or are not allowed.
   */
  lemma ValidatedParamsAreUrlSafe(s: string)
    ensures IsValidUsername(s) || IsValidRepoPath(s) ==> UrlSafe(s)
  {
    NamesAreUrlSafe(s);
    if IsValidRepoPath(s) {
      var k :| 0 <= k < |s| && s[k] == '/' && IsValidUsername(s[..k]) && IsValidRepoName(s[k + 1..]);
      NamesAreUrlSafe(s[..k]);
      NamesAreUrlSafe(s[k + 1..]);
      forall i | 0 <= i < |s| ensures s[i] != '?' && s[i] != '#' && s[i] != '%' && s[i] != ' ' {
        if i < k { assert s[i] == s[..k][i]; }
        else if i > k { assert s[i] == s[k + 1..][i - k - 1]; }
      }
    }
  }
}
