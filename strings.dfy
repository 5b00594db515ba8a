/**
 * Python's `str.split(sep)` for a one-character separator and `sep.join(parts)`,
 * which the index parser and the parent-directory computation are built from.
 */
module Strings {

  /** Index of the first `c` in `s`, or `|s|` when there is none. */
  function IndexOf(s: string, c: char): (i: nat)
    ensures i <= |s|
    ensures i < |s| ==> s[i] == c
  {
    if |s| == 0 then 0
    else if s[0] == c then 0
    else 1 + IndexOf(s[1..], c)
  }

  /** No `c` comes before `IndexOf(s, c)`. */
  lemma {:induction false} IndexOfIsFirst(s: string, c: char)
    ensures c !in s[..IndexOf(s, c)]
  {
    if |s| > 0 && s[0] != c {
      IndexOfIsFirst(s[1..], c);
      assert s[..IndexOf(s, c)] == [s[0]] + s[1..][..IndexOf(s[1..], c)];
    }
  }

  /** `s.split(sep)`: the pieces between separators, always at least one (`"".split(sep) == [""]`). */
  function Split(s: string, sep: char): (parts: seq<string>)
    ensures |parts| >= 1
    decreases |s|
  {
    var i := IndexOf(s, sep);
    if i == |s| then [s]
    else [s[..i]] + Split(s[i + 1..], sep)
  }

  /** `sep.join(parts)`. */
  function Join(parts: seq<string>, sep: char): string
  {
    if |parts| == 0 then ""
    else if |parts| == 1 then parts[0]
    else parts[0] + [sep] + Join(parts[1..], sep)
  }

  /** `s.startswith(prefix)`. */
  predicate StartsWith(s: string, prefix: string)
  {
    |prefix| <= |s| && s[..|prefix|] == prefix
  }

  /** `s.endswith(suffix)`. */
  predicate EndsWith(s: string, suffix: string)
  {
    |suffix| <= |s| && s[|s| - |suffix|..] == suffix
  }

  lemma JoinCons(p: string, rest: seq<string>, sep: char)
    requires |rest| >= 1
    ensures Join([p] + rest, sep) == p + [sep] + Join(rest, sep)
  {
    assert ([p] + rest)[1..] == rest;
  }

  /** A string without the separator splits into itself. */
  lemma SplitNoSeparator(s: string, sep: char)
    requires sep !in s
    ensures Split(s, sep) == [s]
  {
    assert forall k :: 0 <= k < |s| ==> s[k] != sep;
  }

  /** A string holding the separator has its first one inside it. */
  lemma IndexOfFound(s: string, c: char)
    requires c in s
    ensures IndexOf(s, c) < |s|
  {
    IndexOfIsFirst(s, c);
    assert s[..|s|] == s;
  }

  /** How `Split` unfolds at the first separator. */
  lemma SplitAtFirst(s: string, sep: char)
    requires sep in s
    ensures IndexOf(s, sep) < |s|
    ensures Split(s, sep) == [s[..IndexOf(s, sep)]] + Split(s[IndexOf(s, sep) + 1..], sep)
  {
    IndexOfFound(s, sep);
    SplitUnfold(s, sep);
  }

  lemma SplitUnfold(s: string, sep: char)
    requires IndexOf(s, sep) < |s|
    ensures Split(s, sep) == [s[..IndexOf(s, sep)]] + Split(s[IndexOf(s, sep) + 1..], sep)
  {
  }

  /** No piece of a split holds the separator. */
  lemma {:induction false} SplitPiecesLackSeparator(s: string, sep: char)
    ensures forall k :: 0 <= k < |Split(s, sep)| ==> sep !in Split(s, sep)[k]
    decreases |s|
  {
    if sep in s {
      SplitAtFirst(s, sep);
      var i := IndexOf(s, sep);
      IndexOfIsFirst(s, sep);
      SplitPiecesLackSeparator(s[i + 1..], sep);
    } else {
      SplitNoSeparator(s, sep);
    }
  }

  /** The first separator of `a + [sep] + b` is the one after `a` when `a` has none. */
  lemma IndexOfAfter(a: string, sep: char, b: string)
    requires sep !in a
    ensures IndexOf(a + [sep] + b, sep) == |a|
  {
    var s := a + [sep] + b;
    IndexOfIsFirst(s, sep);
    var i := IndexOf(s, sep);
    assert s[|a|] == sep;
    assert s[..|a|] == a;
    assert forall j :: 0 <= j < |a| ==> s[j] == a[j];
    assert forall j :: |a| < j <= |s| ==> s[..j][|a|] == sep;
  }

  /** Joining the pieces of a split gives back the string. */
  lemma {:induction false} JoinSplit(s: string, sep: char)
    ensures Join(Split(s, sep), sep) == s
    decreases |s|
  {
    if sep in s {
      SplitAtFirst(s, sep);
      var i := IndexOf(s, sep);
      var t := s[i + 1..];
      JoinSplit(t, sep);
      JoinCons(s[..i], Split(t, sep), sep);
      assert s == s[..i] + [sep] + t;
    } else {
      SplitNoSeparator(s, sep);
    }
  }

  /** Splitting the join of separator-free pieces gives back the pieces. */
  lemma {:induction false} SplitJoin(parts: seq<string>, sep: char)
    requires |parts| >= 1
    requires forall k :: 0 <= k < |parts| ==> sep !in parts[k]
    ensures Split(Join(parts, sep), sep) == parts
  {
    if |parts| == 1 {
      SplitNoSeparator(parts[0], sep);
    } else {
      var rest := parts[1..];
      var j := Join(rest, sep);
      var s := parts[0] + [sep] + j;
      assert Join(parts, sep) == s;
      IndexOfAfter(parts[0], sep, j);
      assert s[..|parts[0]|] == parts[0];
      assert s[|parts[0]| + 1..] == j;
      assert s[|parts[0]|] == sep;
      SplitAtFirst(s, sep);
      SplitJoin(rest, sep);
      assert parts == [parts[0]] + rest;
    }
  }

  /** `sep.join(s.split(sep)[:-1])`: the text before the last separator. */
  function AllButLast(s: string, sep: char): string
  {
    var parts := Split(s, sep);
    Join(parts[..|parts| - 1], sep)
  }

  /** `AllButLast` of a string whose first separator is also its last. */
  lemma AllButLastAtLast(s: string, sep: char)
    requires IndexOf(s, sep) < |s|
    requires IndexOf(s[IndexOf(s, sep) + 1..], sep) == |s[IndexOf(s, sep) + 1..]|
    ensures AllButLast(s, sep) == s[..IndexOf(s, sep)]
  {
    var i := IndexOf(s, sep);
    var t := s[i + 1..];
    SplitUnfold(s, sep);
    var parts := Split(s, sep);
    assert Split(t, sep) == [t];
    assert parts == [s[..i], t];
    assert parts[..|parts| - 1] == [s[..i]];
  }

  /** `AllButLast` of a string with a separator after its first one. */
  lemma AllButLastBeforeMore(s: string, sep: char)
    requires IndexOf(s, sep) < |s|
    requires IndexOf(s[IndexOf(s, sep) + 1..], sep) < |s[IndexOf(s, sep) + 1..]|
    ensures AllButLast(s, sep) == s[..IndexOf(s, sep)] + [sep] + AllButLast(s[IndexOf(s, sep) + 1..], sep)
  {
    var i := IndexOf(s, sep);
    var t := s[i + 1..];
    SplitUnfold(s, sep);
    SplitUnfold(t, sep);
    var rest := Split(t, sep);
    var parts := Split(s, sep);
    var init := rest[..|rest| - 1];
    DropLastCons(s[..i], rest);
    JoinCons(s[..i], init, sep);
    assert AllButLast(s, sep) == Join(parts[..|parts| - 1], sep);
    assert AllButLast(t, sep) == Join(init, sep);
  }

  /** Dropping the last element of `[x] + xs` keeps `x` in front. */
  lemma DropLastCons<T>(x: T, xs: seq<T>)
    requires |xs| >= 2
    ensures var ys := [x] + xs;
            ys[..|ys| - 1] == [x] + xs[..|xs| - 1] && |xs[..|xs| - 1]| >= 1
  {
  }

  /**
   * Joining every piece but the last keeps exactly the text before the last
   * separator: with no separator that is "", otherwise it is the prefix of `s`
   * that stops at a separator after which no other separator follows.
   */
  lemma JoinAllButLast(s: string, sep: char)
    ensures var p := AllButLast(s, sep);
            (sep !in s ==> p == "") &&
            (sep in s ==> LastSeparatorAt(s, sep, |p|) && p == s[..|p|])
  {
    if sep !in s {
      SplitNoSeparator(s, sep);
    } else {
      JoinAllButLastSep(s, sep);
    }
  }

  /** The last separator of `s` is at `n`. */
  predicate LastSeparatorAt(s: string, sep: char, n: nat)
  {
    n < |s| && s[n] == sep && sep !in s[n + 1..]
  }

  lemma {:induction false} JoinAllButLastSep(s: string, sep: char)
    requires sep in s
    ensures var p := AllButLast(s, sep);
            LastSeparatorAt(s, sep, |p|) && p == s[..|p|]
    decreases |s|
  {
    IndexOfFound(s, sep);
    var i := IndexOf(s, sep);
    var t := s[i + 1..];
    if IndexOf(t, sep) < |t| {
      assert sep in t by { assert t[IndexOf(t, sep)] == sep; }
      JoinAllButLastSep(t, sep);
      AllButLastBeforeMore(s, sep);
      LastSeparatorShift(s, sep, i, AllButLast(t, sep));
    } else {
      AllButLastAtLast(s, sep);
      IndexOfIsFirst(t, sep);
      assert t[..|t|] == t;
    }
  }

  /** Moving the facts about `t = s[i + 1..]` back to `s`, when `s[i]` is the separator. */
  lemma LastSeparatorShift(s: string, sep: char, i: nat, q: string)
    requires i < |s| && s[i] == sep
    requires LastSeparatorAt(s[i + 1..], sep, |q|) && q == s[i + 1..][..|q|]
    ensures var p := s[..i] + [sep] + q;
            LastSeparatorAt(s, sep, |p|) && p == s[..|p|]
  {
    var t := s[i + 1..];
    var p := s[..i] + [sep] + q;
    assert s[|p|] == t[|q|];
    assert s[|p| + 1..] == t[|q| + 1..];
    assert s[..|p|] == s[..i] + [sep] + t[..|q|];
  }
}
