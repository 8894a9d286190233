/**
 * The two PHP string built-ins the endpoints rely on:
 * `trim` (register.php, login.php) and `str_replace` with an empty replacement
 * (the bearer-prefix stripping in coach_data.php and profile.php).
 */
module PhpStrings {

  /** The characters PHP's `trim` removes by default: space, tab, line feed, carriage return, NUL and vertical tab. */
  predicate IsTrimChar(c: char)
  {
    c == ' ' || c == '\t' || c == '\n' || c == '\r' || c == '\0' || c == '\U{B}'
  }

  /** Index of the first character at or after `i` that `trim` keeps (|s| if there is none). */
  function TrimStart(s: string, i: nat := 0): (r: nat)
    requires i <= |s|
    ensures i <= r <= |s|
    ensures forall k :: i <= k < r ==> IsTrimChar(s[k])
    ensures r < |s| ==> !IsTrimChar(s[r])
    decreases |s| - i
  {
    if i < |s| && IsTrimChar(s[i]) then TrimStart(s, i + 1) else i
  }

  /** One past the last character before `j`, and not before `lo`, that `trim` keeps. */
  function TrimEnd(s: string, lo: nat, j: nat): (r: nat)
    requires lo <= j <= |s|
    ensures lo <= r <= j
    ensures forall k :: r <= k < j ==> IsTrimChar(s[k])
    ensures r > lo ==> !IsTrimChar(s[r - 1])
    decreases j
  {
    if j > lo && IsTrimChar(s[j - 1]) then TrimEnd(s, lo, j - 1) else j
  }

  /**
   * PHP's `trim`: the stretch of `s` from its first to its last non-trim character;
   * everything cut away on either side is a trim character.
   */
  function Trim(s: string): (r: string)
    ensures r != [] ==> !IsTrimChar(r[0]) && !IsTrimChar(r[|r| - 1])
    ensures r == s[TrimStart(s)..TrimEnd(s, TrimStart(s), |s|)]
    ensures forall k :: 0 <= k < TrimStart(s) ==> IsTrimChar(s[k])
    ensures forall k :: TrimEnd(s, TrimStart(s), |s|) <= k < |s| ==> IsTrimChar(s[k])
  {
    var a := TrimStart(s);
    var b := TrimEnd(s, a, |s|);
    assert a < b ==> s[a..b][0] == s[a] && s[a..b][b - a - 1] == s[b - 1];
    s[a..b]
  }

  /**
   * Stand-in for `filter_var($email, FILTER_VALIDATE_EMAIL)`: exactly one `@`, with
   * something on both sides, and no space or other trim character anywhere.
   */
  predicate IsValidEmail(e: string)
  {
    && (forall k :: 0 <= k < |e| ==> !IsTrimChar(e[k]))
    && exists i :: 0 < i < |e| - 1 && e[i] == '@' && forall k :: 0 <= k < |e| && k != i ==> e[k] != '@'
  }

  /**
   * `str_replace(p, '', s)`: one left-to-right pass that deletes every non-overlapping
   * occurrence of `p`; text produced by a deletion is not scanned again. An empty `p`
   * leaves `s` as it is.
   */
  function RemoveAll(s: string, p: string): (r: string)
    ensures |r| <= |s|
    ensures p == [] ==> r == s
    decreases |s|
  {
    if p == [] || |s| < |p| then s
    else if s[..|p|] == p then RemoveAll(s[|p|..], p)
    else [s[0]] + RemoveAll(s[1..], p)
  }

  /** A leading occurrence is deleted, and the pass carries on with what follows it. */
  lemma RemoveAllLeading(p: string, t: string)
    requires p != []
    ensures RemoveAll(p + t, p) == RemoveAll(t, p)
  {
    assert (p + t)[..|p|] == p;
    assert (p + t)[|p|..] == t;
  }

  /** A string holding no character of `p` at some position `i` of `p` comes back unchanged. */
  lemma {:induction false} RemoveAllAbsent(s: string, p: string, i: nat)
    requires i < |p| && p[i] !in s
    ensures RemoveAll(s, p) == s
    decreases |s|
  {
    if |s| >= |p| {
      assert s[..|p|][i] == s[i];
      assert s[..|p|] != p;
      RemoveAllAbsent(s[1..], p, i);
      assert s == [s[0]] + s[1..];
    }
  }

  /** Where the text at the front differs from `p` somewhere, its first character is kept. */
  lemma RemoveAllKeepsHead(s: string, p: string, i: nat)
    requires i < |p| <= |s| && s[i] != p[i]
    ensures RemoveAll(s, p) == [s[0]] + RemoveAll(s[1..], p)
  {
    assert s[..|p|][i] == s[i];
  }

  /** Deletion is not restricted to a prefix: an occurrence in the middle goes as well. */
  lemma RemoveAllInner()
    ensures RemoveAll("xBearer y", "Bearer ") == "xy"
  {
    var p, s := "Bearer ", "xBearer y";
    RemoveAllKeepsHead(s, p, 0);
    assert s[1..] == p + "y";
    RemoveAllLeading(p, "y");
  }

  /**
   * Deletion happens in a single pass: the two pieces left around a deleted occurrence
   * can join into a new occurrence, which then stays in the result.
   */
  lemma RemoveAllSinglePass()
    ensures RemoveAll("BearBearer er ", "Bearer ") == "Bearer "
  {
    var p := "Bearer ";
    assert p[0] != p[1] && p[0] != p[2] && p[0] != p[3] && p[0] != p[4];
    SinglePassRejoins(p);
    assert p[..4] + p + p[4..] == "BearBearer er ";
  }

  /** An occurrence of `p` starts at position `j` of `s`. */
  predicate OccursAt(s: string, p: string, j: nat)
  {
    j + |p| <= |s| && s[j..j + |p|] == p
  }

  /** Occurrences in `s[1..]` are the occurrences in `s` moved one place to the left. */
  lemma OccursAtTail(s: string, p: string, j: nat)
    requires |s| > 0
    ensures OccursAt(s[1..], p, j) <==> OccursAt(s, p, j + 1)
  {
    if j + 1 + |p| <= |s| {
      assert s[1..][j..j + |p|] == s[j + 1..j + 1 + |p|];
    }
  }

  /** No occurrence in the first `n` places of `s` means none in the first `n - 1` places of `s[1..]`. */
  lemma NoOccurrenceInTail(s: string, p: string, n: nat)
    requires 0 < n && n + |p| <= |s|
    requires forall j: nat :: j < n ==> !OccursAt(s, p, j)
    ensures forall j: nat :: j < n - 1 ==> !OccursAt(s[1..], p, j)
  {
    forall j: nat | j < n - 1
      ensures !OccursAt(s[1..], p, j)
    {
      OccursAtTail(s, p, j);
    }
  }

  /** Where no occurrence of `p` starts in the first `n` places, those `n` characters are kept. */
  lemma {:induction false} RemoveAllKeepsPrefix(s: string, p: string, n: nat)
    requires p != [] && n + |p| <= |s|
    requires forall j: nat :: j < n ==> !OccursAt(s, p, j)
    ensures RemoveAll(s, p) == s[..n] + RemoveAll(s[n..], p)
    decreases n
  {
    if n == 0 {
      assert s[..0] + s[0..] == s[0..];
    } else {
      NoOccurrenceInTail(s, p, n);
      RemoveAllKeepsPrefix(s[1..], p, n - 1);
      calc {
        RemoveAll(s, p);
        { assert !OccursAt(s, p, 0) && s[..|p|] == s[0..0 + |p|]; }
        [s[0]] + RemoveAll(s[1..], p);
        [s[0]] + (s[1..][..n - 1] + RemoveAll(s[1..][n - 1..], p));
        { assert s[1..][n - 1..] == s[n..]; }
        ([s[0]] + s[1..][..n - 1]) + RemoveAll(s[n..], p);
        { assert [s[0]] + s[1..][..n - 1] == s[..n]; }
        s[..n] + RemoveAll(s[n..], p);
      }
    }
  }

  /**
   * The general behaviour of the pass: text in front of the first occurrence of `p` is
   * kept, that occurrence is deleted, and the pass goes on with what follows, wherever
   * in the string the occurrence stands.
   */
  lemma RemoveAllAfter(a: string, p: string, b: string)
    requires p != []
    requires forall j: nat :: j < |a| ==> !OccursAt(a + p + b, p, j)
    ensures RemoveAll(a + p + b, p) == a + RemoveAll(b, p)
  {
    var s := a + p + b;
    RemoveAllKeepsPrefix(s, p, |a|);
    assert s[..|a|] == a;
    assert s[|a|..] == p + b;
    RemoveAllLeading(p, b);
  }

  /**
   * For a seven-character pattern whose first character does not come back in the
   * next four places, deleting the occurrence in `p[..4] + p + p[4..]` rejoins `p`.
   */
  lemma SinglePassRejoins(p: string)
    requires |p| == 7 && p[0] != p[1] && p[0] != p[2] && p[0] != p[3] && p[0] != p[4]
    ensures RemoveAll(p[..4] + p + p[4..], p) == p
  {
    var s := p[..4] + p + p[4..];
    // No occurrence starts in the first four places ...
    forall j: nat | j < 4
      ensures !OccursAt(s, p, j)
    {
      if j == 0 {
        assert s[j..j + |p|][4] == p[0];
      } else {
        assert s[j..j + |p|][0] == p[j];
      }
    }
    // ... the occurrence after them is deleted, and what is left around it is not scanned again.
    RemoveAllAfter(p[..4], p, p[4..]);
    assert p[..4] + p[4..] == p;
  }
}
