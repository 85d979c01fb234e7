/** Python's `str.split` with a one-character separator and a `maxsplit` bound,
    and its inverse `str.join`. */
module PySplit {
  import opened Wrappers

  /** The first index of `c` in `s`. */
  function IndexOf(s: string, c: char): (r: Option<nat>)
    ensures r.Some? ==> r.value < |s|
    decreases |s|
  {
    if |s| == 0 then None
    else if s[0] == c then Some(0)
    else match IndexOf(s[1..], c)
      case None => None
      case Some(i) => Some(i + 1)
  }

  /** Python's `s.split(sep, maxsplit)` for a one-character separator. */
  function Split(s: string, sep: char, maxsplit: nat): (parts: seq<string>)
    ensures 1 <= |parts| <= maxsplit + 1
    decreases |s|
  {
    if maxsplit == 0 then [s]
    else match IndexOf(s, sep)
      case None => [s]
      case Some(i) => [s[..i]] + Split(s[i + 1..], sep, maxsplit - 1)
  }

  /** Python's `sep.join(parts)`. */
  function Join(parts: seq<string>, sep: char): string
    decreases |parts|
  {
    if |parts| == 0 then ""
    else if |parts| == 1 then parts[0]
    else parts[0] + [sep] + Join(parts[1..], sep)
  }

  /** Python's `s.count(c)` for a single character. */
  function Count(s: string, c: char): nat
    decreases |s|
  {
    if |s| == 0 then 0 else (if s[0] == c then 1 else 0) + Count(s[1..], c)
  }

  function Min(a: nat, b: nat): nat {
    if a < b then a else b
  }

  // ---------------------------------------------------------------------
  // Lemmas
  // ---------------------------------------------------------------------

  /** `IndexOf` finds the first occurrence, and finds none exactly when there is none. */
  lemma {:induction false} IndexOfFirst(s: string, c: char)
    ensures IndexOf(s, c).None? <==> c !in s
    ensures IndexOf(s, c).Some? ==> s[IndexOf(s, c).value] == c && c !in s[..IndexOf(s, c).value]
    decreases |s|
  {
    if |s| > 0 && s[0] != c {
      IndexOfFirst(s[1..], c);
      assert s == [s[0]] + s[1..];
      match IndexOf(s[1..], c)
      case None =>
      case Some(i) =>
        assert s[..i + 1] == [s[0]] + s[1..][..i];
    }
  }

  /** The first occurrence in `a + [c] + rest`, when `a` holds no `c`, is right after `a`. */
  lemma {:induction false} IndexOfAfter(a: string, rest: string, c: char)
    requires c !in a
    ensures IndexOf(a + [c] + rest, c) == Some(|a|)
    decreases |a|
  {
    var s := a + [c] + rest;
    if |a| > 0 {
      assert s[0] == a[0] != c;
      assert s[1..] == a[1..] + [c] + rest;
      IndexOfAfter(a[1..], rest, c);
    } else {
      assert s[0] == c;
    }
  }

  lemma CutAt(s: string, i: nat)
    requires i < |s|
    ensures s == s[..i] + [s[i]] + s[i + 1..]
  {
  }

  lemma JoinCons(head: string, rest: seq<string>, sep: char)
    requires |rest| > 0
    ensures Join([head] + rest, sep) == head + [sep] + Join(rest, sep)
  {
    assert ([head] + rest)[1..] == rest;
  }

  /** A split that finds the separator at `i` cuts there. */
  lemma SplitAtIndex(s: string, sep: char, maxsplit: nat, i: nat)
    requires maxsplit > 0 && IndexOf(s, sep) == Some(i)
    ensures Split(s, sep, maxsplit) == [s[..i]] + Split(s[i + 1..], sep, maxsplit - 1)
  {
  }

  /** Joining the parts of a split with the separator restores the string. */
  lemma {:induction false} SplitJoin(s: string, sep: char, maxsplit: nat)
    ensures Join(Split(s, sep, maxsplit), sep) == s
    decreases |s|
  {
    var found := IndexOf(s, sep);
    if maxsplit > 0 && found.Some? {
      var i := found.value;
      var head, tail := s[..i], s[i + 1..];
      var rest := Split(tail, sep, maxsplit - 1);
      calc {
        Join(Split(s, sep, maxsplit), sep);
        { SplitAtIndex(s, sep, maxsplit, i); }
        Join([head] + rest, sep);
        { JoinCons(head, rest, sep); }
        head + [sep] + Join(rest, sep);
        { SplitJoin(tail, sep, maxsplit - 1); }
        head + [sep] + tail;
        { IndexOfFirst(s, sep); CutAt(s, i); }
        s;
      }
    } else {
      assert Split(s, sep, maxsplit) == [s];
    }
  }

  lemma {:induction false} CountAppend(a: string, b: string, c: char)
    ensures Count(a + b, c) == Count(a, c) + Count(b, c)
    decreases |a|
  {
    if |a| == 0 {
      assert a + b == b;
    } else {
      assert (a + b)[1..] == a[1..] + b;
      CountAppend(a[1..], b, c);
    }
  }

  lemma {:induction false} CountAbsent(s: string, c: char)
    requires c !in s
    ensures Count(s, c) == 0
    decreases |s|
  {
    if |s| > 0 {
      assert s[0] != c;
      assert c !in s[1..];
      CountAbsent(s[1..], c);
    }
  }

  /** Cutting at the first separator leaves one occurrence fewer in the tail. */
  lemma CountAfterFirst(s: string, sep: char, i: nat)
    requires IndexOf(s, sep) == Some(i)
    ensures Count(s, sep) == Count(s[i + 1..], sep) + 1
  {
    IndexOfFirst(s, sep);
    CutAt(s, i);
    CountAppend(s[..i] + [s[i]], s[i + 1..], sep);
    CountAppend(s[..i], [s[i]], sep);
    CountAbsent(s[..i], sep);
  }

  /** The inductive step of `SplitCount`: a cut at the first separator. */
  lemma SplitCountStep(s: string, sep: char, maxsplit: nat, i: nat)
    requires maxsplit > 0 && IndexOf(s, sep) == Some(i)
    requires |Split(s[i + 1..], sep, maxsplit - 1)| == Min(maxsplit - 1, Count(s[i + 1..], sep)) + 1
    ensures |Split(s, sep, maxsplit)| == Min(maxsplit, Count(s, sep)) + 1
  {
    SplitAtIndex(s, sep, maxsplit, i);
    CountAfterFirst(s, sep, i);
  }

  /** A split makes one cut per occurrence of the separator, up to `maxsplit`. */
  lemma {:induction false} SplitCount(s: string, sep: char, maxsplit: nat)
    ensures |Split(s, sep, maxsplit)| == Min(maxsplit, Count(s, sep)) + 1
    decreases |s|
  {
    var found := IndexOf(s, sep);
    if maxsplit == 0 {
    } else if found.None? {
      IndexOfFirst(s, sep);
      CountAbsent(s, sep);
    } else {
      SplitCount(s[found.value + 1..], sep, maxsplit - 1);
      SplitCountStep(s, sep, maxsplit, found.value);
    }
  }

  /** Every part but the last is free of the separator. */
  lemma {:induction false} SplitNoSeparatorInHead(s: string, sep: char, maxsplit: nat)
    ensures forall i | 0 <= i < |Split(s, sep, maxsplit)| - 1 :: sep !in Split(s, sep, maxsplit)[i]
    decreases |s|
  {
    var found := IndexOf(s, sep);
    if maxsplit > 0 && found.Some? {
      var i := found.value;
      var rest := Split(s[i + 1..], sep, maxsplit - 1);
      var parts := [s[..i]] + rest;
      assert Split(s, sep, maxsplit) == parts;
      IndexOfFirst(s, sep);
      SplitNoSeparatorInHead(s[i + 1..], sep, maxsplit - 1);
      forall j | 1 <= j < |parts| - 1 ensures sep !in parts[j] {
        assert parts[j] == rest[j - 1];
      }
    }
  }

  /** Splitting `a + sep + rest`, where `a` holds no separator, cuts exactly there. */
  lemma SplitAtFirst(a: string, rest: string, sep: char, maxsplit: nat)
    requires sep !in a && maxsplit > 0
    ensures Split(a + [sep] + rest, sep, maxsplit) == [a] + Split(rest, sep, maxsplit - 1)
  {
    var s := a + [sep] + rest;
    IndexOfAfter(a, rest, sep);
    assert s[..|a|] == a;
    assert s[|a| + 1..] == rest;
    SplitAtIndex(s, sep, maxsplit, |a|);
  }

  /** Two cuts: words without the separator come back as the first two parts. */
  lemma SplitTwoCuts(a: string, b: string, c: string, sep: char)
    requires sep !in a && sep !in b
    ensures Split(a + [sep] + b + [sep] + c, sep, 2) == [a, b, c]
  {
    var tail := b + [sep] + c;
    calc {
      Split(a + [sep] + b + [sep] + c, sep, 2);
      { assert a + [sep] + b + [sep] + c == a + [sep] + tail; }
      Split(a + [sep] + tail, sep, 2);
      { SplitAtFirst(a, tail, sep, 2); }
      [a] + Split(b + [sep] + c, sep, 1);
      { SplitAtFirst(b, c, sep, 1); }
      [a] + ([b] + Split(c, sep, 0));
      [a, b, c];
    }
  }

  /** A split into three parts is undone by putting the two separators back. */
  lemma SplitThreeParts(s: string, sep: char)
    requires |Split(s, sep, 2)| == 3
    ensures var p := Split(s, sep, 2);
      && s == p[0] + [sep] + p[1] + [sep] + p[2]
      && sep !in p[0] && sep !in p[1]
  {
    var p := Split(s, sep, 2);
    SplitNoSeparatorInHead(s, sep, 2);
    assert p == [p[0]] + p[1..];
    assert p[1..] == [p[1]] + [p[2]];
    calc {
      s;
      { SplitJoin(s, sep, 2); }
      Join([p[0]] + p[1..], sep);
      { JoinCons(p[0], p[1..], sep); }
      p[0] + [sep] + Join([p[1]] + [p[2]], sep);
      { JoinCons(p[1], [p[2]], sep); }
      p[0] + [sep] + (p[1] + [sep] + Join([p[2]], sep));
      p[0] + [sep] + p[1] + [sep] + p[2];
    }
  }
}
