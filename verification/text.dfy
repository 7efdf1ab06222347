/**
 * The few string operations the wiki relies on, with the meaning Python gives
 * them: `str.startswith`, `str.endswith`, `str.split` on one separator
 * character and `sep.join(list)`.
 */
module Text {

  /** s.startswith(prefix) */
  predicate StartsWith(s: string, prefix: string) {
    |prefix| <= |s| && s[..|prefix|] == prefix
  }

  /** s.endswith(suffix) */
  predicate EndsWith(s: string, suffix: string) {
    |suffix| <= |s| && s[|s| - |suffix|..] == suffix
  }

  /**
   * s.split(sep) for a single separator character: the pieces between the
   * separators, so there is always at least one piece and none holds `sep`.
   */
  function Split(s: string, sep: char): (r: seq<string>)
    ensures |r| >= 1
    ensures forall i :: 0 <= i < |r| ==> sep !in r[i]
  {
    if s == [] then [""]
    else if s[0] == sep then [""] + Split(s[1..], sep)
    else
      var rest := Split(s[1..], sep);
      [[s[0]] + rest[0]] + rest[1..]
  }

  /** sep.join(xs) */
  function JoinWith(xs: seq<string>, sep: string): string {
    if |xs| == 0 then ""
    else if |xs| == 1 then xs[0]
    else xs[0] + sep + JoinWith(xs[1..], sep)
  }

  /** Joining the pieces of a split with the same separator gives back the string. */
  lemma {:induction false} JoinSplit(s: string, sep: char)
    ensures JoinWith(Split(s, sep), [sep]) == s
  {
    if s == [] {
    } else if s[0] == sep {
      JoinSplit(s[1..], sep);
      assert s == [sep] + s[1..];
    } else {
      var rest := Split(s[1..], sep);
      JoinSplit(s[1..], sep);
      if |rest| > 1 {
        assert JoinWith(rest, [sep]) == rest[0] + [sep] + JoinWith(rest[1..], [sep]);
      }
      assert s == [s[0]] + s[1..];
    }
  }

  /** A string without the separator splits into itself alone. */
  lemma {:induction false} SplitPlain(s: string, sep: char)
    requires sep !in s
    ensures Split(s, sep) == [s]
  {
    if s != [] {
      SplitPlain(s[1..], sep);
      assert s == [s[0]] + s[1..];
    }
  }

  /** Splitting distributes over a separator placed between two strings. */
  lemma {:induction false} SplitConcat(a: string, b: string, sep: char)
    ensures Split(a + [sep] + b, sep) == Split(a, sep) + Split(b, sep)
  {
    var s := a + [sep] + b;
    if a == [] {
      assert s == [sep] + b;
      assert s[1..] == b;
    } else {
      assert s[0] == a[0];
      assert s[1..] == a[1..] + [sep] + b;
      SplitConcat(a[1..], b, sep);
    }
  }

  /** Splitting the join of separator-free pieces gives back the pieces. */
  lemma {:induction false} SplitJoin(xs: seq<string>, sep: char)
    requires |xs| >= 1
    requires forall i :: 0 <= i < |xs| ==> sep !in xs[i]
    ensures Split(JoinWith(xs, [sep]), sep) == xs
  {
    SplitPlain(xs[0], sep);
    if |xs| == 1 {
      assert JoinWith(xs, [sep]) == xs[0];
      assert xs == [xs[0]];
    } else {
      var rest := JoinWith(xs[1..], [sep]);
      assert JoinWith(xs, [sep]) == xs[0] + [sep] + rest;
      assert Split(rest, sep) == xs[1..] by { SplitJoin(xs[1..], sep); }
      SplitConcat(xs[0], rest, sep);
      assert xs == [xs[0]] + xs[1..];
    }
  }

  /** Joining two non-empty lists puts one separator between their joins. */
  lemma {:induction false} JoinAppend(xs: seq<string>, ys: seq<string>, sep: string)
    requires |xs| >= 1 && |ys| >= 1
    ensures JoinWith(xs + ys, sep) == JoinWith(xs, sep) + sep + JoinWith(ys, sep)
  {
    if |xs| == 1 {
      assert (xs + ys)[1..] == ys;
    } else {
      assert (xs + ys)[1..] == xs[1..] + ys;
      JoinAppend(xs[1..], ys, sep);
    }
  }

  /** The join of a list whose first piece is non-empty starts with that piece's first character. */
  lemma {:induction false} JoinHead(xs: seq<string>, sep: string)
    requires |xs| >= 1 && xs[0] != ""
    ensures JoinWith(xs, sep) != "" && JoinWith(xs, sep)[0] == xs[0][0]
  {
  }

  /** The join of a list whose last piece is non-empty ends with that piece's last character. */
  lemma {:induction false} JoinLast(xs: seq<string>, sep: string)
    requires |xs| >= 1 && xs[|xs| - 1] != ""
    ensures var j := JoinWith(xs, sep); j != "" && j[|j| - 1] == xs[|xs| - 1][|xs[|xs| - 1]| - 1]
  {
    if |xs| > 1 {
      JoinLast(xs[1..], sep);
    }
  }

  /** The join of a longer list extends the join of its prefix. */
  lemma JoinPrefix(xs: seq<string>, ys: seq<string>, sep: string)
    ensures StartsWith(JoinWith(xs + ys, sep), JoinWith(xs, sep))
  {
    if xs == [] {
    } else if ys == [] {
      assert xs + ys == xs;
    } else {
      JoinAppend(xs, ys, sep);
    }
  }

  /** Concatenation regroups freely. Stated on its own so that the proofs using it need not prove it amid their larger contexts. */
  lemma Assoc(a: string, b: string, c: string)
    ensures (a + b) + c == a + (b + c)
  {
  }
}
