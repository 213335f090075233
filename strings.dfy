/**
 * The few `java.lang.String` operations the core relies on, over `seq<char>`:
 * startsWith, endsWith, contains (as SQL LIKE '%k%' is modelled), lastIndexOf,
 * trim and split on a single character.
 */
module JavaStrings {

  predicate StartsWith(s: string, p: string) {
    |p| <= |s| && s[..|p|] == p
  }

  predicate EndsWith(s: string, p: string) {
    |p| <= |s| && s[|s| - |p|..] == p
  }

  /** k occurs in s starting at index i. */
  predicate OccursAt(s: string, k: string, i: int) {
    0 <= i <= |s| - |k| && s[i..i + |k|] == k
  }

  /** `s.contains(k)`: k occurs in s as a contiguous substring. */
  predicate Contains(s: string, k: string) {
    exists i :: 0 <= i <= |s| - |k| && OccursAt(s, k, i)
  }

  /** `s.lastIndexOf(c)`: the index of the last occurrence of c, or -1. */
  function LastIndexOf(s: string, c: char): (r: int)
    ensures -1 <= r < |s|
    ensures r == -1 <==> c !in s
    ensures r >= 0 ==> s[r] == c && c !in s[r + 1..]
  {
    if s == [] then -1
    else if s[|s| - 1] == c then |s| - 1
    else
      var k := LastIndexOf(s[..|s| - 1], c);
      assert c in s ==> c in s[..|s| - 1] by {
        if c in s {
          var j :| 0 <= j < |s| && s[j] == c;
          assert s[..|s| - 1][j] == c;
        }
      }
      assert k >= 0 ==> s[k + 1..] == s[..|s| - 1][k + 1..] + [s[|s| - 1]];
      k
  }

  /** The characters `String.trim()` removes: every code point up to U+0020. */
  predicate IsTrimmable(c: char) {
    c <= ' '
  }

  function TrimStart(s: string): (r: string)
    ensures |r| <= |s| && r == s[|s| - |r|..]
    ensures forall i :: 0 <= i < |s| - |r| ==> IsTrimmable(s[i])
    ensures r == [] || !IsTrimmable(r[0])
  {
    if s != [] && IsTrimmable(s[0]) then TrimStart(s[1..]) else s
  }

  function TrimEnd(s: string): (r: string)
    ensures |r| <= |s| && r == s[..|r|]
    ensures forall i :: |r| <= i < |s| ==> IsTrimmable(s[i])
    ensures r == [] || !IsTrimmable(r[|r| - 1])
  {
    if s != [] && IsTrimmable(s[|s| - 1]) then TrimEnd(s[..|s| - 1]) else s
  }

  /** `s.trim()`: s without its leading and trailing characters up to U+0020. */
  function Trim(s: string): string {
    TrimEnd(TrimStart(s))
  }

  /** `s.trim().isEmpty()` */
  predicate IsBlank(s: string) {
    Trim(s) == []
  }

  /**
   * Cutting a trimmable prefix off s and then a trimmable suffix off the rest
   * leaves a middle s[i..j] whose ends are kept characters.
   */
  lemma CutBothEnds(s: string, t: string, e: string) returns (i: nat, j: nat)
    requires |t| <= |s| && t == s[|s| - |t|..]
    requires forall k :: 0 <= k < |s| - |t| ==> IsTrimmable(s[k])
    requires t == [] || !IsTrimmable(t[0])
    requires |e| <= |t| && e == t[..|e|]
    requires forall k :: |e| <= k < |t| ==> IsTrimmable(t[k])
    requires e == [] || !IsTrimmable(e[|e| - 1])
    ensures i <= j <= |s| && e == s[i..j]
    ensures forall k :: 0 <= k < i ==> IsTrimmable(s[k])
    ensures forall k :: j <= k < |s| ==> IsTrimmable(s[k])
    ensures i < j ==> !IsTrimmable(s[i]) && !IsTrimmable(s[j - 1])
  {
    i := |s| - |t|;
    j := i + |e|;
    forall k | j <= k < |s| ensures IsTrimmable(s[k]) {
      assert s[k] == t[k - i];
    }
    if i < j {
      assert s[i] == t[0] && s[j - 1] == e[|e| - 1];
    }
  }

  /** Trim returns the contiguous middle s[i..j] of s, which starts and ends with a kept character. */
  lemma TrimIsMiddle(s: string) returns (i: nat, j: nat)
    ensures i <= j <= |s| && Trim(s) == s[i..j]
    ensures forall k :: 0 <= k < i ==> IsTrimmable(s[k])
    ensures forall k :: j <= k < |s| ==> IsTrimmable(s[k])
    ensures i < j ==> !IsTrimmable(s[i]) && !IsTrimmable(s[j - 1])
  {
    var t := TrimStart(s);
    i, j := CutBothEnds(s, t, TrimEnd(t));
  }

  /** A string is blank exactly when every character of it is one trim removes. */
  lemma BlankIffAllTrimmable(s: string)
    ensures IsBlank(s) <==> forall k :: 0 <= k < |s| ==> IsTrimmable(s[k])
  {
    var i, j := TrimIsMiddle(s);
  }

  lemma {:induction false} TrimStartOfKept(s: string)
    requires s == [] || !IsTrimmable(s[0])
    ensures TrimStart(s) == s
  {
  }

  lemma {:induction false} TrimEndOfKept(s: string)
    requires s == [] || !IsTrimmable(s[|s| - 1])
    ensures TrimEnd(s) == s
  {
  }

  /** Trimming twice is trimming once. */
  lemma TrimIdempotent(s: string)
    ensures Trim(Trim(s)) == Trim(s)
  {
    var i, j := TrimIsMiddle(s);
    var t := Trim(s);
    assert t == [] || (t[0] == s[i] && t[|t| - 1] == s[j - 1]);
    TrimStartOfKept(t);
    TrimEndOfKept(t);
  }

  /**
   * A string that starts with p, where p begins and ends with characters
   * trim keeps, still starts with p after trimming.
   */
  lemma TrimKeepsKeptPrefix(s: string, p: string)
    requires StartsWith(s, p) && p != []
    requires !IsTrimmable(p[0]) && !IsTrimmable(p[|p| - 1])
    ensures StartsWith(Trim(s), p)
  {
    assert s[0] == p[0];
    TrimStartOfKept(s);
    var r := TrimEnd(s);
    assert s[|p| - 1] == p[|p| - 1];
    assert |p| <= |r|;
    assert r[..|p|] == s[..|p|];
  }

  /**
   * Every piece of s between occurrences of sep, including empty pieces and
   * trailing ones (what `split` produces before dropping trailing empties).
   */
  function SplitAll(s: string, sep: char): (r: seq<string>)
    ensures |r| >= 1
    ensures forall i :: 0 <= i < |r| ==> sep !in r[i]
    decreases |s|
  {
    var k := LastIndexOf(s, sep);
    if k < 0 then [s] else SplitAll(s[..k], sep) + [s[k + 1..]]
  }

  /** Pieces glued back with sep between consecutive pieces. */
  function Join(pieces: seq<string>, sep: char): string
    requires |pieces| >= 1
  {
    if |pieces| == 1 then pieces[0]
    else Join(pieces[..|pieces| - 1], sep) + [sep] + pieces[|pieces| - 1]
  }

  /** Splitting loses nothing: the pieces joined with the separator give s back. */
  lemma {:induction false} JoinSplitAll(s: string, sep: char)
    ensures Join(SplitAll(s, sep), sep) == s
    decreases |s|
  {
    var k := LastIndexOf(s, sep);
    if k >= 0 {
      var front := SplitAll(s[..k], sep);
      JoinSplitAll(s[..k], sep);
      var all := SplitAll(s, sep);
      assert all == front + [s[k + 1..]];
      assert all[..|all| - 1] == front;
      assert s == s[..k] + [sep] + s[k + 1..];
    }
  }

  function DropTrailingEmpty(pieces: seq<string>): (r: seq<string>)
    ensures |r| <= |pieces| && r == pieces[..|r|]
    ensures r == [] || r[|r| - 1] != []
    ensures forall i :: |r| <= i < |pieces| ==> pieces[i] == []
  {
    if pieces != [] && pieces[|pieces| - 1] == [] then DropTrailingEmpty(pieces[..|pieces| - 1])
    else pieces
  }

  /**
   * `s.split(String.valueOf(sep))`: a string without sep gives [s]; otherwise
   * every piece, with the trailing empty pieces dropped.
   */
  function Split(s: string, sep: char): (r: seq<string>)
    ensures forall i :: 0 <= i < |r| ==> sep !in r[i]
  {
    if sep !in s then [s]
    else
      var all := SplitAll(s, sep);
      var r := DropTrailingEmpty(all);
      assert forall i :: 0 <= i < |r| ==> r[i] == all[i];
      r
  }
}
