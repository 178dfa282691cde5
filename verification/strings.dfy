/** String helpers with the semantics of the Rust standard library calls the
    summaries use: `[String]::join`, `Iterator::reduce` with a separator, and a
    split on one character used to read summaries back. */
module Strings {
  import opened Wrappers

  /** `xs` with `sep` between consecutive entries and nowhere else (`[String]::join`). */
  function Join(xs: seq<string>, sep: string): string
  {
    if |xs| == 0 then ""
    else if |xs| == 1 then xs[0]
    else xs[0] + sep + Join(xs[1..], sep)
  }

  /** `xs.into_iter().reduce(|acc, s| acc + sep + &s)`: `None` when `xs` is empty,
      otherwise a left fold starting from the first entry. */
  function Reduce(xs: seq<string>, sep: string): Option<string>
  {
    if |xs| == 0 then None else Some(FoldFrom(xs[0], xs[1..], sep))
  }

  /** The left fold behind `Reduce`: appends `sep + s` to `acc` for each `s` in order. */
  function FoldFrom(acc: string, rest: seq<string>, sep: string): string
    decreases |rest|
  {
    if |rest| == 0 then acc else FoldFrom(acc + sep + rest[0], rest[1..], sep)
  }

  /** Joining one more entry puts the separator and that entry at the end. */
  lemma {:induction false} JoinSnoc(xs: seq<string>, x: string, sep: string)
    requires |xs| > 0
    ensures Join(xs + [x], sep) == Join(xs, sep) + sep + x
    decreases |xs|
  {
    if |xs| == 1 {
      assert xs + [x] == [xs[0], x];
      assert [xs[0], x][1..] == [x];
    } else {
      assert (xs + [x])[1..] == xs[1..] + [x];
      JoinSnoc(xs[1..], x, sep);
    }
  }

  /** A join of several entries ends with the last entry. */
  lemma JoinEndsWithLast(xs: seq<string>, sep: string)
    requires |xs| > 1
    ensures EndsWith(Join(xs, sep), xs[|xs| - 1])
  {
    var init := xs[..|xs| - 1];
    assert xs == init + [xs[|xs| - 1]];
    JoinSnoc(init, xs[|xs| - 1], sep);
  }

  /** Folding from `acc` over `rest` is joining `[acc] + rest`. */
  lemma {:induction false} FoldFromIsJoin(acc: string, rest: seq<string>, sep: string)
    ensures FoldFrom(acc, rest, sep) == Join([acc] + rest, sep)
    decreases |rest|
  {
    if |rest| == 0 {
      assert [acc] + rest == [acc];
    } else {
      var rest' := rest[..|rest| - 1];
      var last := rest[|rest| - 1];
      assert rest == rest' + [last];
      FoldFromSnoc(acc, rest', last, sep);
      FoldFromIsJoin(acc, rest', sep);
      assert [acc] + rest == ([acc] + rest') + [last];
      JoinSnoc([acc] + rest', last, sep);
    }
  }

  /** Folding over one more entry appends the separator and that entry. */
  lemma {:induction false} FoldFromSnoc(acc: string, rest: seq<string>, x: string, sep: string)
    ensures FoldFrom(acc, rest + [x], sep) == FoldFrom(acc, rest, sep) + sep + x
    decreases |rest|
  {
    if |rest| == 0 {
      assert rest + [x] == [x];
      assert [x][1..] == [];
    } else {
      assert (rest + [x])[0] == rest[0];
      assert (rest + [x])[1..] == rest[1..] + [x];
      FoldFromSnoc(acc + sep + rest[0], rest[1..], x, sep);
    }
  }

  /** `reduce(...).unwrap_or_default()` computes exactly `join`: the empty input
      gives the empty string and there is no leading or trailing separator. */
  lemma ReduceIsJoin(xs: seq<string>, sep: string)
    ensures Reduce(xs, sep).UnwrapOr("") == Join(xs, sep)
  {
    if |xs| > 0 {
      FoldFromIsJoin(xs[0], xs[1..], sep);
      assert [xs[0]] + xs[1..] == xs;
    }
  }

  /** `s` ends with `suffix`. */
  predicate EndsWith(s: string, suffix: string)
  {
    |suffix| <= |s| && s[|s| - |suffix|..] == suffix
  }

  /** The pieces of `s` between occurrences of `c` (at least one piece). */
  function Split(s: string, c: char): (parts: seq<string>)
    ensures |parts| > 0
  {
    if |s| == 0 then [""]
    else
      var rest := Split(s[1..], c);
      if s[0] == c then [""] + rest else [[s[0]] + rest[0]] + rest[1..]
  }

  /** A string without `c` splits into itself. */
  lemma {:induction false} SplitWithout(x: string, c: char)
    requires c !in x
    ensures Split(x, c) == [x]
    decreases |x|
  {
    if |x| > 0 {
      SplitWithout(x[1..], c);
      assert [x[0]] + x[1..] == x;
    }
  }

  /** Splitting `x + [c] + y` where `x` has no `c` peels `x` off the front. */
  lemma {:induction false} SplitAtFirst(x: string, y: string, c: char)
    requires c !in x
    ensures Split(x + [c] + y, c) == [x] + Split(y, c)
    decreases |x|
  {
    var s := x + [c] + y;
    if |x| == 0 {
      assert s == [c] + y;
      assert s[1..] == y;
    } else {
      assert s[0] == x[0];
      assert s[1..] == x[1..] + [c] + y;
      SplitAtFirst(x[1..], y, c);
      assert [x[0]] + x[1..] == x;
    }
  }

  /** Splitting undoes joining with a one-character separator that no entry contains. */
  lemma {:induction false} SplitJoin(xs: seq<string>, c: char)
    requires |xs| > 0
    requires forall i :: 0 <= i < |xs| ==> c !in xs[i]
    ensures Split(Join(xs, [c]), c) == xs
    decreases |xs|
  {
    if |xs| == 1 {
      SplitWithout(xs[0], c);
    } else {
      SplitJoin(xs[1..], c);
      SplitAtFirst(xs[0], Join(xs[1..], [c]), c);
      assert [xs[0]] + xs[1..] == xs;
    }
  }
}
