/** Python string operations used by the modelled code: `str.split(sep)`,
    `str.split()`, `sep.join(xs)`, `str.lower()` and the substring test `p in s`. */
module Text {

  /** The ASCII characters `str.split()` with no argument separates on: those for
      which `str.isspace()` holds, including the separators 0x1C-0x1F. */
  const Whitespace: set<char> := {' ', '\t', '\n', '\r', '\U{000B}', '\U{000C}',
                                  '\U{001C}', '\U{001D}', '\U{001E}', '\U{001F}'}

  /** True when no character of `s` belongs to `seps`. */
  predicate Avoids(s: string, seps: set<char>) {
    forall i :: 0 <= i < |s| ==> s[i] !in seps
  }

  /** Splitting at every occurrence of a separator character, keeping empty pieces:
      `s.split(c)` when `seps == {c}`. There is always at least one piece. */
  function SplitOn(s: string, seps: set<char>): (pieces: seq<string>)
    ensures |pieces| >= 1
    ensures forall k :: 0 <= k < |pieces| ==> Avoids(pieces[k], seps)
  {
    if s == [] then [""]
    else if s[0] in seps then [""] + SplitOn(s[1..], seps)
    else
      var rest := SplitOn(s[1..], seps);
      [[s[0]] + rest[0]] + rest[1..]
  }

  /** `sep.join(xs)`. */
  function JoinWith(xs: seq<string>, sep: string): string {
    if xs == [] then ""
    else if |xs| == 1 then xs[0]
    else xs[0] + sep + JoinWith(xs[1..], sep)
  }

  /** Drops the empty strings, keeping the order of the rest. */
  function NonEmpty(xs: seq<string>): (r: seq<string>)
    ensures forall k :: 0 <= k < |r| ==> r[k] != "" && r[k] in xs
  {
    if xs == [] then []
    else if xs[0] == "" then NonEmpty(xs[1..])
    else [xs[0]] + NonEmpty(xs[1..])
  }

  /** `s.split()`: the maximal runs of non-whitespace characters, in order. */
  function Fields(s: string): (r: seq<string>)
    ensures forall k :: 0 <= k < |r| ==> r[k] != "" && Avoids(r[k], Whitespace)
  {
    NonEmpty(SplitOn(s, Whitespace))
  }

  /** `s.lower()` on ASCII letters. */
  function Lower(s: string): (r: string)
    ensures |r| == |s|
    ensures forall i :: 0 <= i < |s| ==> r[i] == if 'A' <= s[i] <= 'Z' then (s[i] - 'A' + 'a') as char else s[i]
  {
    if s == [] then ""
    else [if 'A' <= s[0] <= 'Z' then (s[0] - 'A' + 'a') as char else s[0]] + Lower(s[1..])
  }

  /** Python's `p in s` on strings: `p` occurs in `s` at some offset. */
  predicate IsSubstring(p: string, s: string) {
    exists k | 0 <= k <= |s| - |p| :: OccursAt(p, s, k)
  }

  predicate OccursAt(p: string, s: string, k: int) {
    0 <= k <= |s| - |p| && s[k..k + |p|] == p
  }

  /** Splitting a piece without separators followed by more text glues the piece to
      the first piece of the rest. */
  lemma {:induction false} SplitOnPrefix(x: string, rest: string, seps: set<char>)
    requires Avoids(x, seps)
    ensures SplitOn(x + rest, seps)
         == [x + SplitOn(rest, seps)[0]] + SplitOn(rest, seps)[1..]
  {
    if x != [] {
      assert (x + rest)[0] == x[0] && (x + rest)[1..] == x[1..] + rest;
      assert x[0] !in seps;
      SplitOnPrefix(x[1..], rest, seps);
      var tail := SplitOn(x[1..] + rest, seps);
      var after := SplitOn(rest, seps);
      assert SplitOn(x + rest, seps) == [[x[0]] + tail[0]] + tail[1..];
      assert tail[0] == x[1..] + after[0] && tail[1..] == after[1..];
      assert [x[0]] + (x[1..] + after[0]) == ([x[0]] + x[1..]) + after[0];
      assert x == [x[0]] + x[1..];
    } else {
      var after := SplitOn(rest, seps);
      assert x + rest == rest && x + after[0] == after[0];
      assert after == [after[0]] + after[1..];
    }
  }

  /** Splitting undoes joining: `sep.join(xs).split(sep) == xs` when no piece contains
      the separator (a non-empty list is needed: `"".split(sep)` is `[""]`). */
  lemma {:induction false} SplitJoin(xs: seq<string>, c: char, seps: set<char>)
    requires |xs| >= 1 && c in seps
    requires forall k :: 0 <= k < |xs| ==> Avoids(xs[k], seps)
    ensures SplitOn(JoinWith(xs, [c]), seps) == xs
  {
    if |xs| == 1 {
      SplitOnPrefix(xs[0], "", seps);
      assert xs[0] + "" == xs[0];
    } else {
      var tail := JoinWith(xs[1..], [c]);
      SplitJoin(xs[1..], c, seps);
      assert JoinWith(xs, [c]) == xs[0] + ([c] + tail);
      assert ([c] + tail)[0] == c && ([c] + tail)[1..] == tail;
      SplitOnPrefix(xs[0], [c] + tail, seps);
      assert SplitOn([c] + tail, seps) == [""] + xs[1..];
      assert xs[0] + "" == xs[0];
      assert xs == [xs[0]] + xs[1..];
    }
  }

  /** A string without separators is a single piece. */
  lemma SplitOnWithout(s: string, seps: set<char>)
    ensures Avoids(s, seps) ==> SplitOn(s, seps) == [s]
  {
    if Avoids(s, seps) {
      SplitOnPrefix(s, "", seps);
      assert s + "" == s;
    }
  }

  /** Joining undoes splitting: `c.join(s.split(c)) == s` for every string. */
  lemma {:induction false} JoinSplit(s: string, c: char)
    ensures JoinWith(SplitOn(s, {c}), [c]) == s
  {
    if s != [] {
      var rest := SplitOn(s[1..], {c});
      JoinSplit(s[1..], c);
      if s[0] == c {
        assert ([""] + rest)[1..] == rest;
      } else if |rest| > 1 {
        var pieces := [[s[0]] + rest[0]] + rest[1..];
        assert pieces[1..] == rest[1..];
        assert JoinWith(pieces, [c]) == [s[0]] + (rest[0] + [c] + JoinWith(rest[1..], [c]));
      }
      assert s == [s[0]] + s[1..];
    }
  }

  /** Joining a list extended by one element appends the separator and that element. */
  lemma {:induction false} JoinSnoc(xs: seq<string>, y: string, sep: string)
    requires |xs| >= 1
    ensures JoinWith(xs + [y], sep) == JoinWith(xs, sep) + sep + y
  {
    if |xs| > 1 {
      assert (xs + [y])[1..] == xs[1..] + [y];
      JoinSnoc(xs[1..], y, sep);
    }
  }

  /** Dropping empty strings from a list that has none changes nothing. */
  lemma {:induction false} NonEmptyKeeps(xs: seq<string>)
    requires forall k :: 0 <= k < |xs| ==> xs[k] != ""
    ensures NonEmpty(xs) == xs
  {
    if xs != [] {
      NonEmptyKeeps(xs[1..]);
    }
  }

  /** `" ".join(cols).split() == cols` for non-empty columns without whitespace. */
  lemma FieldsOfJoinedColumns(cols: seq<string>)
    requires |cols| >= 1
    requires forall k :: 0 <= k < |cols| ==> cols[k] != "" && Avoids(cols[k], Whitespace)
    ensures Fields(JoinWith(cols, " ")) == cols
  {
    SplitJoin(cols, ' ', Whitespace);
    NonEmptyKeeps(cols);
  }
}
