/**
 * The string primitives the modelled code relies on: searching for one
 * character, splitting on one separator character and joining back.
 * Strings are sequences of characters; no encoding is modelled.
 */
module Text {

  /** Index of the first occurrence of `c` in `s`, or -1 when there is none. */
  function IndexOf(s: string, c: char): (r: int)
    ensures -1 <= r < |s|
    ensures r == -1 <==> c !in s
    ensures 0 <= r ==> s[r] == c && c !in s[..r]
  {
    if s == [] then -1
    else if s[0] == c then 0
    else
      var k := IndexOf(s[1..], c);
      if k < 0 then -1
      else
        assert s[..k + 1] == [s[0]] + s[1..][..k];
        k + 1
  }

  /** Index of the last occurrence of `c` in `s`, or -1 when there is none. */
  function LastIndexOf(s: string, c: char): (r: int)
    ensures -1 <= r < |s|
    ensures r == -1 <==> c !in s
    ensures 0 <= r ==> s[r] == c && c !in s[r + 1..]
  {
    if s == [] then -1
    else if s[|s| - 1] == c then |s| - 1
    else
      var k := LastIndexOf(s[..|s| - 1], c);
      assert s == s[..|s| - 1] + [s[|s| - 1]];
      if k < 0 then -1
      else
        assert s[k + 1..] == s[..|s| - 1][k + 1..] + [s[|s| - 1]];
        k
  }

  /**
   * Splitting on a one-character separator, as Go's strings.Split does it:
   * every separator ends a piece, so the empty string gives one empty piece
   * and no piece contains the separator.
   */
  function Split(s: string, sep: char): (parts: seq<string>)
    ensures |parts| >= 1
    ensures forall k :: 0 <= k < |parts| ==> sep !in parts[k]
    decreases |s|
  {
    var i := IndexOf(s, sep);
    if i < 0 then [s] else [s[..i]] + Split(s[i + 1..], sep)
  }

  /** Joining pieces with one separator character between neighbours, as strings.Join does. */
  function Join(parts: seq<string>, sep: char): (s: string)
    ensures |parts| == 0 ==> s == ""
    ensures |parts| >= 1 ==> parts[0] <= s
    ensures |parts| >= 2 ==> |s| > |parts[0]| && s[|parts[0]|] == sep
  {
    if |parts| == 0 then ""
    else if |parts| == 1 then parts[0]
    else parts[0] + [sep] + Join(parts[1..], sep)
  }

  /** The first occurrence is the only position holding `c` with no `c` before it. */
  lemma IndexOfAt(s: string, c: char, i: nat)
    requires i < |s| && s[i] == c && c !in s[..i]
    ensures IndexOf(s, c) == i
  {
  }

  /** The last occurrence is the only position holding `c` with no `c` after it. */
  lemma LastIndexOfAt(s: string, c: char, i: nat)
    requires i < |s| && s[i] == c && c !in s[i + 1..]
    ensures LastIndexOf(s, c) == i
  {
  }

  lemma JoinCons(head: string, rest: seq<string>, sep: char)
    requires |rest| >= 1
    ensures Join([head] + rest, sep) == head + [sep] + Join(rest, sep)
  {
    assert ([head] + rest)[1..] == rest;
  }

  /** Joining the pieces of a split gives back the string that was split. */
  lemma {:induction false} JoinSplit(s: string, sep: char)
    ensures Join(Split(s, sep), sep) == s
    decreases |s|
  {
    var i := IndexOf(s, sep);
    if i >= 0 {
      JoinSplit(s[i + 1..], sep);
      JoinCons(s[..i], Split(s[i + 1..], sep), sep);
      assert s == s[..i] + [sep] + s[i + 1..];
    }
  }

  /** Splitting a join of separator-free pieces gives back the pieces. */
  lemma {:induction false} SplitJoin(parts: seq<string>, sep: char)
    requires |parts| >= 1
    requires forall k :: 0 <= k < |parts| ==> sep !in parts[k]
    ensures Split(Join(parts, sep), sep) == parts
  {
    if |parts| > 1 {
      var head, rest := parts[0], parts[1..];
      var s := Join(parts, sep);
      assert parts == [head] + rest;
      JoinCons(head, rest, sep);
      SepPieces(head, Join(rest, sep), sep);
      IndexOfAt(s, sep, |head|);
      SplitAt(s, sep, |head|);
      SplitJoin(rest, sep);
    } else {
      assert sep !in parts[0];
    }
  }

  /** Where the two sides of one separator sit. */
  lemma SepPieces(a: string, b: string, sep: char)
    ensures var s := a + [sep] + b;
      && |s| == |a| + |b| + 1 && s[|a|] == sep
      && s[..|a|] == a && s[|a| + 1..] == b
  {
    var s := a + [sep] + b;
    assert s[..|a|] == a;
    assert s[|a| + 1..] == b;
  }

  /** A separator between two strings splits them independently. */
  lemma {:induction false} SplitAppend(a: string, b: string, sep: char)
    ensures Split(a + [sep] + b, sep) == Split(a, sep) + Split(b, sep)
    decreases |a|
  {
    var s := a + [sep] + b;
    var i := IndexOf(a, sep);
    if i < 0 {
      assert s[|a|] == sep && s[..|a|] == a;
      IndexOfAt(s, sep, |a|);
      assert s[|a| + 1..] == b;
      SplitAt(s, sep, |a|);
      assert Split(a, sep) == [a];
    } else {
      assert s[..i] == a[..i] && s[i] == a[i];
      IndexOfAt(s, sep, i);
      assert s[i + 1..] == a[i + 1..] + [sep] + b;
      SplitAt(s, sep, i);
      SplitAt(a, sep, i);
      SplitAppend(a[i + 1..], b, sep);
      ConsAssoc(a[..i], Split(a[i + 1..], sep), Split(b, sep));
    }
  }

  /** Splitting at the first separator, found at `i`. */
  lemma SplitAt(s: string, sep: char, i: nat)
    requires IndexOf(s, sep) == i
    ensures Split(s, sep) == [s[..i]] + Split(s[i + 1..], sep)
  {
  }

  /** A proof step for SplitAppend: regrouping a cons and an append, kept apart to keep that proof small. */
  lemma ConsAssoc(head: string, x: seq<string>, y: seq<string>)
    ensures [head] + (x + y) == ([head] + x) + y
  {
  }

  /** The empty string splits into one empty piece, not into no pieces. */
  lemma SplitEmpty(sep: char)
    ensures Split("", sep) == [""]
  {
  }

  /** A trailing separator ends one more piece, which is empty. */
  lemma SplitTrailing(s: string, sep: char)
    ensures Split(s + [sep], sep) == Split(s, sep) + [""]
  {
    assert s + [sep] == s + [sep] + "";
    SplitAppend(s, "", sep);
    SplitEmpty(sep);
  }
}
